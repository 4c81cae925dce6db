/**
 * Banner categories: the server's filtered listing and creation, and the
 * client form that prepares a category before sending it.
 */
module BannerCategories {
  import opened Wrappers
  import Json
  import Text
  import Seqs
  import Validation
  import ProjectSelection

  /** A stored category. */
  datatype Category = Category(id: int, name: string, contextId: int, bannerId: int, kind: string, categoryId: int, priority: int)

  /** The listing's query parameters; `None` when a parameter is absent or null. */
  datatype Query = Query(currentContextId: Option<int>, contextId: Option<int>, kind: Option<string>, categoryId: Option<int>)

  const NoFilters := Query(None, None, None, None)

  /** An absent filter admits everything; a present one admits only its own value. */
  predicate Admits<T(==)>(filter: Option<T>, value: T) {
    filter.None? || filter.value == value
  }

  /** A category satisfies every supplied filter; both context filters test the context column. */
  predicate Passes(c: Category, q: Query) {
    Admits(q.currentContextId, c.contextId) && Admits(q.contextId, c.contextId) &&
    Admits(q.kind, c.kind) && Admits(q.categoryId, c.categoryId)
  }

  /** One `where` clause: the rows whose column the filter admits. */
  function Where<T(==)>(rows: seq<Category>, filter: Option<T>, column: Category -> T): seq<Category> {
    Seqs.Filter(rows, (c: Category) => Admits(filter, column(c)))
  }

  /** The query as `index` builds it, one clause per parameter, in the order of the action. */
  function Built(rows: seq<Category>, q: Query): seq<Category> {
    var byCurrent := Where(rows, q.currentContextId, (c: Category) => c.contextId);
    var byContext := Where(byCurrent, q.contextId, (c: Category) => c.contextId);
    var byKind := Where(byContext, q.kind, (c: Category) => c.kind);
    Where(byKind, q.categoryId, (c: Category) => c.categoryId)
  }

  lemma WhereCons<T>(c: Category, rest: seq<Category>, filter: Option<T>, column: Category -> T)
    ensures Where([c] + rest, filter, column) ==
            (if Admits(filter, column(c)) then [c] else []) + Where(rest, filter, column)
  {
    assert ([c] + rest)[0] == c && ([c] + rest)[1..] == rest;
  }

  /** The clauses compose into a single filter by the conjunction of the supplied conditions. */
  lemma {:induction false} BuiltIsOneFilter(rows: seq<Category>, q: Query)
    ensures Built(rows, q) == Seqs.Filter(rows, (c: Category) => Passes(c, q))
  {
    if rows != [] {
      var c, rest := rows[0], rows[1..];
      assert rows == [c] + rest;
      BuiltIsOneFilter(rest, q);
      WhereCons(c, rest, q.currentContextId, (c: Category) => c.contextId);
      var r1 := Where(rest, q.currentContextId, (c: Category) => c.contextId);
      if Admits(q.currentContextId, c.contextId) {
        WhereCons(c, r1, q.contextId, (c: Category) => c.contextId);
        var r2 := Where(r1, q.contextId, (c: Category) => c.contextId);
        if Admits(q.contextId, c.contextId) {
          WhereCons(c, r2, q.kind, (c: Category) => c.kind);
          var r3 := Where(r2, q.kind, (c: Category) => c.kind);
          if Admits(q.kind, c.kind) {
            WhereCons(c, r3, q.categoryId, (c: Category) => c.categoryId);
          } else {
            assert [] + r3 == r3;
          }
        } else {
          assert [] + r2 == r2;
        }
      } else {
        assert [] + r1 == r1;
      }
    }
  }

  /**
   * `index`: the categories satisfying every supplied filter, in stored
   * order; with no filter, all of them.
   */
  function Index(rows: seq<Category>, q: Query): (r: seq<Category>)
    ensures forall c :: c in r <==> c in rows && Passes(c, q)
    ensures Seqs.IsSubsequence(r, rows)
    ensures q == NoFilters ==> r == rows
  {
    BuiltIsOneFilter(rows, q);
    if q == NoFilters then Seqs.FilterKeepsAll(rows, (c: Category) => Passes(c, q)); Built(rows, q)
    else Built(rows, q)
  }

  /** Two different context ids in one query select nothing. */
  lemma ConflictingContextsSelectNothing(rows: seq<Category>, q: Query)
    requires q.currentContextId.Some? && q.contextId.Some? && q.currentContextId != q.contextId
    ensures Index(rows, q) == []
  {
  }

  /** Adding a filter can only narrow the result. */
  lemma {:induction false} MoreFiltersNarrow(rows: seq<Category>, q: Query, kind: string)
    requires q.kind.None?
    ensures Seqs.IsSubsequence(Index(rows, q.(kind := Some(kind))), Index(rows, q))
  {
    var narrow := q.(kind := Some(kind));
    BuiltIsOneFilter(rows, q);
    BuiltIsOneFilter(rows, narrow);
    FilterNarrows(rows, (c: Category) => Passes(c, narrow), (c: Category) => Passes(c, q));
  }

  lemma {:induction false} FilterNarrows<T(!new)>(s: seq<T>, strong: T -> bool, weak: T -> bool)
    requires forall x :: strong(x) ==> weak(x)
    ensures Seqs.IsSubsequence(Seqs.Filter(s, strong), Seqs.Filter(s, weak))
  {
    if s != [] {
      FilterNarrows(s[1..], strong, weak);
      if !strong(s[0]) && weak(s[0]) {
        SubsequenceOfTail(Seqs.Filter(s[1..], strong), Seqs.Filter(s[1..], weak), s[0]);
      }
    }
  }

  lemma {:induction false} SubsequenceOfTail<T>(sub: seq<T>, s: seq<T>, x: T)
    requires Seqs.IsSubsequence(sub, s)
    ensures Seqs.IsSubsequence(sub, [x] + s)
  {
    assert ([x] + s)[1..] == s;
  }

  // ---- store ------------------------------------------------------------------

  const StoreFields := ["name", "context_id", "banner_id", "type", "category_id", "priority"]
  const IntegerFields := {"context_id", "banner_id", "category_id", "priority"}

  /** Whether one field of a creation request passes its rules: `required|string` for name and type, `required|integer` for the rest. */
  predicate FieldValid(input: Validation.Input, key: string) {
    if key in IntegerFields then Validation.RequiredInteger(input, key).Some?
    else Validation.RequiredString(input, key).Some?
  }

  /** The stored category carries the request's values, integers as the `integer` rule reads them. */
  predicate Holds(input: Validation.Input, c: Category) {
    (forall k :: k in StoreFields ==> k in input) &&
    input["name"] == Json.Str(c.name) && input["type"] == Json.Str(c.kind) &&
    Validation.IntegerValue(input["context_id"]) == Some(c.contextId) &&
    Validation.IntegerValue(input["banner_id"]) == Some(c.bannerId) &&
    Validation.IntegerValue(input["category_id"]) == Some(c.categoryId) &&
    Validation.IntegerValue(input["priority"]) == Some(c.priority)
  }

  /**
   * `store`: every field is required; any failure is reported per field and
   * nothing is created; otherwise the category gets the next id and the
   * validated values. The type is not checked against the category types.
   */
  function Store(rows: seq<Category>, nextId: int, input: Validation.Input): (r: Result<Category, set<string>>)
    ensures r.Err? ==> r.error != {} && forall k :: k in r.error <==> k in StoreFields && !FieldValid(input, k)
    ensures r.Ok? <==> forall k :: k in StoreFields ==> FieldValid(input, k)
    ensures r.Ok? ==> r.value.id == nextId && Holds(input, r.value)
  {
    var errors := Validation.Failing(StoreFields, (k: string) => FieldValid(input, k));
    if errors != {} then
      Err(errors)
    else
      assert forall k :: k in StoreFields ==> FieldValid(input, k);
      assert FieldValid(input, StoreFields[0]) && FieldValid(input, StoreFields[1]) && FieldValid(input, StoreFields[2]);
      assert FieldValid(input, StoreFields[3]) && FieldValid(input, StoreFields[4]) && FieldValid(input, StoreFields[5]);
      Ok(Category(nextId, input["name"].s, Validation.RequiredInteger(input, "context_id").value,
                  Validation.RequiredInteger(input, "banner_id").value, input["type"].s,
                  Validation.RequiredInteger(input, "category_id").value,
                  Validation.RequiredInteger(input, "priority").value))
  }

  /** A missing field is always reported. */
  lemma StoreReportsMissingField(rows: seq<Category>, nextId: int, input: Validation.Input, key: string)
    requires key in StoreFields && key !in input
    ensures Store(rows, nextId, input).Err? && key in Store(rows, nextId, input).error
  {
  }

  // ---- the client form --------------------------------------------------------

  /**
   * The form's state. A numeric field holds `None` for an empty input and
   * `Some(n)` for a numeral; `bannerId` is filled by the banner picker.
   */
  datatype Form = Form(name: string, bannerId: Option<int>, kind: string, categoryId: Option<int>, priority: Option<int>)

  const InitialForm := Form("", None, "catalog", None, Some(1))
  const CategoryTypes := ["catalog", "promo"]

  /** Picking a banner stores its id. */
  function SelectBanner(f: Form, banner: int): (r: Form)
    ensures r.bannerId == Some(banner) && r.(bannerId := f.bannerId) == f
  {
    f.(bannerId := Some(banner))
  }

  /** Clearing the picker empties the banner field. */
  function ClearBanner(f: Form): (r: Form)
    ensures r.bannerId.None? && r.(bannerId := f.bannerId) == f
  {
    f.(bannerId := None)
  }

  /** The first check that rejects a submission; each shows its own message and sends nothing. */
  datatype Rejection = NameMissing | ContextMissing | BannerMissing | CategoryMissing | PriorityTooLow

  /** What the form sends: ids and priority as numbers, the context's id as held by the selection (`None` is `NaN`). */
  datatype Payload = Payload(name: string, contextId: Option<int>, bannerId: int, kind: string, categoryId: int, priority: int)

  /** The banner id is a number taken from the picker, so 0 counts as missing. */
  predicate BannerChosen(f: Form) {
    f.bannerId.Some? && f.bannerId.value != 0
  }

  /** The checks of `handleSubmit`, in order, then the normalised payload. */
  function Submit(f: Form, selectedContext: Option<ProjectSelection.Sel>): (r: Result<Payload, Rejection>)
    ensures r == Err(NameMissing) <==> Text.Trim(f.name) == []
    ensures r == Err(ContextMissing) <==> Text.Trim(f.name) != [] && selectedContext.None?
    ensures r == Err(BannerMissing) <==> Text.Trim(f.name) != [] && selectedContext.Some? && !BannerChosen(f)
    ensures r == Err(CategoryMissing) <==>
              Text.Trim(f.name) != [] && selectedContext.Some? && BannerChosen(f) && f.categoryId.None?
    ensures r == Err(PriorityTooLow) <==>
              (Text.Trim(f.name) != [] && selectedContext.Some? && BannerChosen(f) && f.categoryId.Some? &&
               (f.priority.None? || f.priority.value < 1))
    ensures r.Ok? ==> r.value == Payload(Text.Trim(f.name), selectedContext.value.id, f.bannerId.value, f.kind,
                                         f.categoryId.value, f.priority.value)
  {
    if Text.Trim(f.name) == [] then Err(NameMissing)
    else if selectedContext.None? then Err(ContextMissing)
    else if !BannerChosen(f) then Err(BannerMissing)
    else if f.categoryId.None? then Err(CategoryMissing)
    else if f.priority.None? || f.priority.value < 1 then Err(PriorityTooLow)
    else Ok(Payload(Text.Trim(f.name), selectedContext.value.id, f.bannerId.value, f.kind,
                    f.categoryId.value, f.priority.value))
  }

  /** A payload that passed the form's checks has a non-blank name and a priority of at least 1. */
  lemma SubmittedPayloadShape(f: Form, selectedContext: Option<ProjectSelection.Sel>)
    requires Submit(f, selectedContext).Ok?
    ensures var p := Submit(f, selectedContext).value;
            p.name != [] && Text.Trim(p.name) == p.name && p.priority >= 1 && p.bannerId != 0
  {
    var p := Submit(f, selectedContext).value;
    TrimIdempotent(f.name);
  }

  lemma TrimIdempotent(s: string)
    ensures Text.Trim(Text.Trim(s)) == Text.Trim(s)
  {
    var t := Text.Trim(s);
    assert t == [] || (!Text.IsJsSpace(t[0]) && !Text.IsJsSpace(t[|t| - 1])) by {
      var u := Text.TrimStart(s);
      if t != [] {
        assert t == u[..|t|];
      }
    }
  }

  /** Clearing the picked banner blocks the submission at the banner check at the latest. */
  lemma ClearedBannerBlocksSubmit(f: Form, selectedContext: Option<ProjectSelection.Sel>)
    ensures Submit(ClearBanner(f), selectedContext).Err?
    ensures Submit(ClearBanner(f), selectedContext).error in {NameMissing, ContextMissing, BannerMissing}
  {
  }

  /** The JSON request a payload becomes; an unknown context id is sent as null. */
  function PayloadInput(p: Payload): (input: Validation.Input)
    ensures input.Keys == set k | k in StoreFields
  {
    map["name" := Json.Str(p.name),
        "context_id" := (if p.contextId.Some? then Json.Int(p.contextId.value) else Json.Null),
        "banner_id" := Json.Int(p.bannerId), "type" := Json.Str(p.kind),
        "category_id" := Json.Int(p.categoryId), "priority" := Json.Int(p.priority)]
  }

  /** The form's limits on a payload that make the server accept it. */
  predicate Storable(p: Payload) {
    && p.name != [] && !Validation.IsTrimChar(p.name[0])
    && p.kind != [] && !Validation.IsTrimChar(p.kind[0])
    && p.contextId.Some? && Text.IntMin <= p.contextId.value <= Text.IntMax
    && Text.IntMin <= p.bannerId <= Text.IntMax
    && Text.IntMin <= p.categoryId <= Text.IntMax
    && Text.IntMin <= p.priority <= Text.IntMax
  }

  /** A storable payload is created with exactly its own values. */
  lemma StorablePayloadIsStored(rows: seq<Category>, nextId: int, p: Payload)
    requires Storable(p)
    ensures Store(rows, nextId, PayloadInput(p)) ==
              Ok(Category(nextId, p.name, p.contextId.value, p.bannerId, p.kind, p.categoryId, p.priority))
  {
    var input := PayloadInput(p);
    PayloadInputValid(p);
    var r := Store(rows, nextId, input);
    var c := r.value;
    assert Validation.IntegerValue(Json.Int(p.contextId.value)) == Some(p.contextId.value);
    assert input["name"] == Json.Str(p.name) && input["type"] == Json.Str(p.kind);
    assert input["context_id"] == Json.Int(p.contextId.value) && input["banner_id"] == Json.Int(p.bannerId);
    assert input["category_id"] == Json.Int(p.categoryId) && input["priority"] == Json.Int(p.priority);
  }

  lemma PayloadInputValid(p: Payload)
    requires Storable(p)
    ensures forall k :: k in StoreFields ==> FieldValid(PayloadInput(p), k)
  {
    var input := PayloadInput(p);
    assert input["name"] == Json.Str(p.name) && input["type"] == Json.Str(p.kind);
    assert input["context_id"] == Json.Int(p.contextId.value) && input["banner_id"] == Json.Int(p.bannerId);
    assert input["category_id"] == Json.Int(p.categoryId) && input["priority"] == Json.Int(p.priority);
    assert FieldValid(input, "name") && FieldValid(input, "type");
    assert FieldValid(input, "context_id") && FieldValid(input, "banner_id");
    assert FieldValid(input, "category_id") && FieldValid(input, "priority");
  }

  /**
   * What the form lets through, the server stores unchanged, given a known
   * context, a name without NUL characters, a non-blank type and numbers
   * that fit a PHP integer.
   */
  lemma FormPayloadIsStored(rows: seq<Category>, nextId: int, f: Form, selectedContext: Option<ProjectSelection.Sel>)
    requires Submit(f, selectedContext).Ok?
    requires var p := Submit(f, selectedContext).value;
             p.contextId.Some? && '\U{0}' !in p.name && p.kind != [] && !Validation.IsTrimChar(p.kind[0]) &&
             Text.IntMin <= p.contextId.value <= Text.IntMax &&
             Text.IntMin <= p.bannerId <= Text.IntMax &&
             Text.IntMin <= p.categoryId <= Text.IntMax &&
             Text.IntMin <= p.priority <= Text.IntMax
    ensures var p := Submit(f, selectedContext).value;
            Store(rows, nextId, PayloadInput(p)) ==
              Ok(Category(nextId, p.name, p.contextId.value, p.bannerId, p.kind, p.categoryId, p.priority))
  {
    var p := Submit(f, selectedContext).value;
    SubmittedNameIsStorable(f, selectedContext);
    StorablePayloadIsStored(rows, nextId, p);
  }

  /** The name the form submits is non-empty and starts with a character `trim` keeps, unless that character is NUL. */
  lemma SubmittedNameIsStorable(f: Form, selectedContext: Option<ProjectSelection.Sel>)
    requires Submit(f, selectedContext).Ok?
    ensures var name := Submit(f, selectedContext).value.name;
            name != [] && (name[0] == '\U{0}' || !Validation.IsTrimChar(name[0]))
  {
    var name := Submit(f, selectedContext).value.name;
    SubmittedPayloadShape(f, selectedContext);
    TrimmedStartsWithText(name);
  }

  /** A non-empty trimmed text does not start with whitespace. */
  lemma TrimmedStartsWithText(s: string)
    requires s != [] && Text.Trim(s) == s
    ensures !Text.IsJsSpace(s[0])
  {
    var t := Text.TrimStart(s);
    assert Text.TrimEnd(t) == t[..|s|];
    assert s[0] == t[0];
  }
}
