/**
 * The stock modal of the client: which warehouses it offers, the checks it
 * runs before saving, the numbers it sends, and how those numbers fare
 * against the server's request rules for a stock row.
 *
 * Every field is a number: the warehouse select holds an id, the other three
 * are number inputs. `None` stands for the empty string an input holds when
 * nothing is chosen or typed. The browser hands over a number input's text as
 * typed, so a typed "0" is a non-empty, truthy string; only the prefilled
 * values of an edited row are numbers, and those are replaced by '' or 0 when
 * falsy.
 */
module StockForm {
  import opened Wrappers
  import Json
  import Seqs
  import Text
  import Validation
  import ProjectSelection
  import WarehouseStocks
  import FormErrors

  datatype Form = Form(warehouseId: Option<int>, categoryId: Option<int>, minQuantity: Option<int>, maxQuantity: Option<int>)

  /** The form before anything is chosen: no warehouse, no category, both bounds 0. */
  const InitialForm := Form(None, None, Some(0), Some(0))

  const WarehouseMessage := "Выберите склад"
  const CategoryMessage := "ID категории обязателен"
  const NegativeMinMessage := "Минимальное количество не может быть отрицательным"
  const NegativeMaxMessage := "Максимальное количество не может быть отрицательным"
  const MaxBelowMinMessage := "Максимальное количество должно быть больше минимального"

  /** `q < 0` in JavaScript: the empty string converts to 0, so an empty input is not negative. */
  predicate Negative(q: Option<int>) {
    q.Some? && q.value < 0
  }

  /** `parseInt(max) < parseInt(min)`: an empty input parses to `NaN`, which compares false. */
  predicate MaxBelowMin(f: Form) {
    f.maxQuantity.Some? && f.minQuantity.Some? && f.maxQuantity.value < f.minQuantity.value
  }

  /**
   * `validate`: a message for a missing warehouse or category and for a
   * negative bound; a maximum below the minimum overwrites the maximum's
   * message.
   */
  function Validate(f: Form): (errors: FormErrors.Errors<string>)
    ensures "warehouse_id" in errors <==> f.warehouseId.None?
    ensures "category_id" in errors <==> f.categoryId.None?
    ensures "min_quantity" in errors <==> Negative(f.minQuantity)
    ensures "max_quantity" in errors <==> Negative(f.maxQuantity) || MaxBelowMin(f)
    ensures MaxBelowMin(f) ==> errors["max_quantity"] == MaxBelowMinMessage
    ensures !MaxBelowMin(f) && Negative(f.maxQuantity) ==> errors["max_quantity"] == NegativeMaxMessage
    ensures forall k :: k in errors ==> k in WarehouseStocks.StockFields && FormErrors.Shown(errors[k])
  {
    var e1 := if f.warehouseId.None? then map["warehouse_id" := WarehouseMessage] else map[];
    var e2 := if f.categoryId.None? then e1["category_id" := CategoryMessage] else e1;
    var e3 := if Negative(f.minQuantity) then e2["min_quantity" := NegativeMinMessage] else e2;
    var e4 := if Negative(f.maxQuantity) then e3["max_quantity" := NegativeMaxMessage] else e3;
    if MaxBelowMin(f) then e4["max_quantity" := MaxBelowMinMessage] else e4
  }

  /** The form may be saved exactly when `validate` recorded no message. */
  function IsValid(f: Form): (ok: bool)
    ensures ok <==> (&& f.warehouseId.Some? && f.categoryId.Some?
                     && !Negative(f.minQuantity) && !Negative(f.maxQuantity) && !MaxBelowMin(f))
  {
    Validate(f) == map[]
  }

  /**
   * The warehouses the select offers: creating a row under a selected context
   * offers only that context's warehouses; editing, or having no context,
   * offers all of them.
   */
  function Offered(warehouses: seq<WarehouseStocks.Warehouse>, selectedContext: Option<ProjectSelection.Sel>, editing: bool)
    : (r: seq<WarehouseStocks.Warehouse>)
    ensures editing || selectedContext.None? ==> r == warehouses
    ensures !editing && selectedContext.Some? ==>
              forall w :: w in r <==> w in warehouses && Some(w.contextId) == selectedContext.value.id
    ensures Seqs.IsSubsequence(r, warehouses)
  {
    if selectedContext.Some? && !editing then
      var id := selectedContext.value.id;
      Seqs.Filter(warehouses, (w: WarehouseStocks.Warehouse) => Some(w.contextId) == id)
    else
      Seqs.SubsequenceOfItself(warehouses);
      warehouses
  }


  /** A context selected from storage whose id did not parse (`NaN`) matches no warehouse. */
  lemma UnparsedContextOffersNothing(warehouses: seq<WarehouseStocks.Warehouse>, name: string)
    ensures Offered(warehouses, Some(ProjectSelection.Sel(None, name)), false) == []
  {
  }

  /**
   * The form an edited row opens with: a zero warehouse or category (falsy)
   * becomes the empty input; a zero bound becomes 0, so a bound is never empty.
   */
  function Prefill(s: WarehouseStocks.Stock): (f: Form)
    ensures f.minQuantity == Some(s.minQuantity) && f.maxQuantity == Some(s.maxQuantity)
    ensures f.warehouseId.None? <==> s.warehouseId == 0
    ensures f.categoryId.None? <==> s.categoryId == 0
    ensures f.warehouseId.Some? ==> f.warehouseId.value == s.warehouseId
    ensures f.categoryId.Some? ==> f.categoryId.value == s.categoryId
  {
    Form(if s.warehouseId != 0 then Some(s.warehouseId) else None,
         if s.categoryId != 0 then Some(s.categoryId) else None,
         Some(s.minQuantity), Some(s.maxQuantity))
  }

  /**
   * A row the server's rules accept reopens as a form the client accepts
   * exactly when its maximum is not below its minimum; the server never
   * compared the two.
   */
  lemma PrefilledRowRevalidates(s: WarehouseStocks.Stock)
    requires s.warehouseId >= 1 && s.categoryId >= 1 && s.minQuantity >= 0 && s.maxQuantity >= 0
    ensures IsValid(Prefill(s)) <==> s.minQuantity <= s.maxQuantity
  {
  }

  /** A number after `parseInt`, as JSON: `NaN` is sent as `null`. */
  function NumberOrNull(q: Option<int>): (v: Json.Value)
    ensures q.Some? <==> v.Int?
    ensures q.Some? ==> v == Json.Int(q.value)
    ensures q.None? ==> v == Json.Null
  {
    if q.Some? then Json.Int(q.value) else Json.Null
  }

  /** The request body `handleSubmit` saves: the four fields, each integer-parsed. */
  function PayloadInput(f: Form): (input: Validation.Input)
    ensures input.Keys == set k | k in WarehouseStocks.StockFields
    ensures input["warehouse_id"] == NumberOrNull(f.warehouseId) && input["category_id"] == NumberOrNull(f.categoryId)
    ensures input["min_quantity"] == NumberOrNull(f.minQuantity) && input["max_quantity"] == NumberOrNull(f.maxQuantity)
  {
    map["warehouse_id" := NumberOrNull(f.warehouseId), "category_id" := NumberOrNull(f.categoryId),
        "min_quantity" := NumberOrNull(f.minQuantity), "max_quantity" := NumberOrNull(f.maxQuantity)]
  }

  predicate InPhpRange(q: Option<int>) {
    q.Some? && Text.IntMin <= q.value <= Text.IntMax
  }

  /**
   * What the server demands beyond the client's checks: every field filled,
   * a category of at least 1, a known warehouse, values that fit PHP's
   * integers.
   */
  predicate ServerReady(f: Form, warehouseIds: set<int>) {
    && InPhpRange(f.warehouseId) && InPhpRange(f.categoryId)
    && InPhpRange(f.minQuantity) && InPhpRange(f.maxQuantity)
    && f.warehouseId.value >= 1 && f.warehouseId.value in warehouseIds
    && f.categoryId.value >= 1
  }

  /** Each field of the payload reads back under `required|integer` as the number the form held. */
  lemma PayloadFieldReads(f: Form, field: Field)
    ensures Validation.RequiredInteger(PayloadInput(f), field.Key()) ==
              (if InPhpRange(Get(f, field)) then Get(f, field) else None)
  {
    var input := PayloadInput(f);
    assert input[field.Key()] == NumberOrNull(Get(f, field));
  }

  /** A form that passes its own checks and meets the server's extra demands is stored with exactly its values. */
  lemma ValidFormIsAccepted(f: Form, warehouseIds: set<int>)
    requires IsValid(f) && ServerReady(f, warehouseIds)
    ensures WarehouseStocks.Validate(PayloadInput(f), warehouseIds) ==
              Ok(WarehouseStocks.Fields(f.warehouseId.value, f.categoryId.value, f.maxQuantity.value, f.minQuantity.value))
  {
    var input := PayloadInput(f);
    PayloadFieldReads(f, WarehouseField);
    PayloadFieldReads(f, CategoryField);
    PayloadFieldReads(f, MinField);
    PayloadFieldReads(f, MaxField);
    assert WarehouseStocks.FieldValid(input, warehouseIds, "warehouse_id");
    assert WarehouseStocks.FieldValid(input, warehouseIds, "category_id");
    assert WarehouseStocks.FieldValid(input, warehouseIds, "min_quantity");
    assert WarehouseStocks.FieldValid(input, warehouseIds, "max_quantity");
  }

  /** A category id typed as 0 passes the client, which only asks for a non-empty input, and the server refuses it. */
  lemma ZeroCategoryPassesOnlyTheClient()
    ensures IsValid(Form(Some(1), Some(0), Some(0), Some(5)))
    ensures WarehouseStocks.Validate(PayloadInput(Form(Some(1), Some(0), Some(0), Some(5))), {1}) == Err({"category_id"})
  {
    var f := Form(Some(1), Some(0), Some(0), Some(5));
    var input := PayloadInput(f);
    PayloadFieldReads(f, WarehouseField);
    PayloadFieldReads(f, CategoryField);
    PayloadFieldReads(f, MinField);
    PayloadFieldReads(f, MaxField);
    assert WarehouseStocks.FieldValid(input, {1}, "warehouse_id");
    assert !WarehouseStocks.FieldValid(input, {1}, "category_id");
    assert WarehouseStocks.FieldValid(input, {1}, "min_quantity");
    assert WarehouseStocks.FieldValid(input, {1}, "max_quantity");
    var r := WarehouseStocks.Validate(input, {1});
    assert "category_id" in r.error;
    assert r.error == {"category_id"};
  }

  /** An emptied maximum is neither negative nor below the minimum, so the client sends `null` and the server refuses it. */
  lemma EmptyMaxPassesOnlyTheClient()
    ensures IsValid(Form(Some(1), Some(1), Some(0), None))
    ensures WarehouseStocks.Validate(PayloadInput(Form(Some(1), Some(1), Some(0), None)), {1}) == Err({"max_quantity"})
  {
    var f := Form(Some(1), Some(1), Some(0), None);
    var input := PayloadInput(f);
    PayloadFieldReads(f, WarehouseField);
    PayloadFieldReads(f, CategoryField);
    PayloadFieldReads(f, MinField);
    PayloadFieldReads(f, MaxField);
    assert WarehouseStocks.FieldValid(input, {1}, "warehouse_id");
    assert WarehouseStocks.FieldValid(input, {1}, "category_id");
    assert WarehouseStocks.FieldValid(input, {1}, "min_quantity");
    assert !WarehouseStocks.FieldValid(input, {1}, "max_quantity");
    var r := WarehouseStocks.Validate(input, {1});
    assert "max_quantity" in r.error;
    assert r.error == {"max_quantity"};
  }

  /** Only the client compares the bounds: the server's rules accept a maximum below the minimum. */
  lemma OnlyTheClientComparesBounds()
    ensures !IsValid(Form(Some(1), Some(1), Some(5), Some(2)))
    ensures WarehouseStocks.Validate(PayloadInput(Form(Some(1), Some(1), Some(5), Some(2))), {1}).Ok?
  {
    var f := Form(Some(1), Some(1), Some(5), Some(2));
    var input := PayloadInput(f);
    PayloadFieldReads(f, WarehouseField);
    PayloadFieldReads(f, CategoryField);
    PayloadFieldReads(f, MinField);
    PayloadFieldReads(f, MaxField);
    assert WarehouseStocks.FieldValid(input, {1}, "warehouse_id");
    assert WarehouseStocks.FieldValid(input, {1}, "category_id");
    assert WarehouseStocks.FieldValid(input, {1}, "min_quantity");
    assert WarehouseStocks.FieldValid(input, {1}, "max_quantity");
  }

  /** The four inputs, by their `name` attribute. */
  datatype Field = WarehouseField | CategoryField | MinField | MaxField {
    function Key(): string {
      match this
      case WarehouseField => "warehouse_id"
      case CategoryField => "category_id"
      case MinField => "min_quantity"
      case MaxField => "max_quantity"
    }
  }

  function Get(f: Form, field: Field): Option<int> {
    match field
    case WarehouseField => f.warehouseId
    case CategoryField => f.categoryId
    case MinField => f.minQuantity
    case MaxField => f.maxQuantity
  }

  /** `handleChange`: store the input's new value and blank that input's message. */
  function HandleChange(f: Form, errors: FormErrors.Errors<string>, field: Field, value: Option<int>)
    : (r: (Form, FormErrors.Errors<string>))
    ensures Get(r.0, field) == value
    ensures forall g: Field :: g != field ==> Get(r.0, g) == Get(f, g)
    ensures r.1 == FormErrors.ClearError(errors, field.Key(), FormErrors.Shown, "")
  {
    var g := match field
      case WarehouseField => f.(warehouseId := value)
      case CategoryField => f.(categoryId := value)
      case MinField => f.(minQuantity := value)
      case MaxField => f.(maxQuantity := value);
    (g, FormErrors.ClearError(errors, field.Key(), FormErrors.Shown, ""))
  }

  /** Editing an input hides exactly that input's message. */
  lemma ChangeHidesOnlyItsMessage(f: Form, errors: FormErrors.Errors<string>, field: Field, value: Option<int>)
    ensures FormErrors.Showing(HandleChange(f, errors, field, value).1, FormErrors.Shown) ==
            FormErrors.Showing(errors, FormErrors.Shown) - {field.Key()}
  {
    FormErrors.ClearErrorHidesOnlyThatField(errors, field.Key(), FormErrors.Shown, "");
  }
}
