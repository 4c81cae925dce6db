/**
 * The stock-per-warehouse answer for one category: the query and item
 * transfer objects, the base strategy that draws a random quantity per
 * warehouse, the service that picks a strategy class by name, and the older
 * per-category endpoint that maps over stock rows instead.
 */
module WarehouseQuery {
  import opened Wrappers
  import Json
  import Text
  import Seqs
  import Validation
  import opened WarehouseStocks

  // ---- item transfer object ---------------------------------------------------

  /** One answer row: the warehouse and the quantity drawn for it. */
  datatype Item = Item(warehouseName: string, warehouseId: int, quantity: int)

  type Row = map<string, Json.Value>

  const ItemKeys: set<string> := {"warehouse_name", "warehouse_id", "quantity"}

  predicate FitsPhpInt(i: int) {
    Text.IntMin <= i <= Text.IntMax
  }

  /** `toArray`: the three fields under their snake-case keys. */
  function ItemToArray(x: Item): (d: Row)
    ensures d.Keys == ItemKeys
  {
    map["warehouse_name" := Json.Str(x.warehouseName), "warehouse_id" := Json.Int(x.warehouseId),
        "quantity" := Json.Int(x.quantity)]
  }

  /** Why `fromArray` throws: a missing key, or a value the typed constructor refuses. */
  datatype DtoError = MissingKey(key: string) | TypeError(key: string)

  /** A value passed to a `string` parameter: integers and booleans are converted, null is refused. */
  function StringParam(v: Json.Value): (r: Option<string>)
    ensures r.None? <==> v.Null?
    ensures v.Str? ==> r == Some(v.s)
  {
    match v
    case Str(s) => Some(s)
    case Int(i) => Some(Text.IntToString(i))
    case Bool(b) => Some(if b then "1" else "")
    case Null => None
  }

  /** A value passed to an `int` parameter: integers that fit and booleans are taken, strings and null refused. */
  function IntParam(v: Json.Value): (r: Option<int>)
    ensures r.Some? ==> FitsPhpInt(r.value)
    ensures v.Int? && FitsPhpInt(v.i) ==> r == Some(v.i)
  {
    match v
    case Int(i) => if FitsPhpInt(i) then Some(i) else None
    case Bool(b) => Some(if b then 1 else 0)
    case Str(_) => None
    case Null => None
  }

  /**
   * `fromArray`: the three keys are read in constructor order, a missing
   * one failing first; then each value must suit its parameter type.
   */
  function ItemFromArray(d: Row): (r: Result<Item, DtoError>)
    ensures r.Ok? <==> ItemKeys <= d.Keys && StringParam(d["warehouse_name"]).Some? &&
                       IntParam(d["warehouse_id"]).Some? && IntParam(d["quantity"]).Some?
    ensures "warehouse_name" !in d.Keys ==> r == Err(MissingKey("warehouse_name"))
  {
    if "warehouse_name" !in d then Err(MissingKey("warehouse_name"))
    else if "warehouse_id" !in d then Err(MissingKey("warehouse_id"))
    else if "quantity" !in d then Err(MissingKey("quantity"))
    else
      var name, id, quantity := StringParam(d["warehouse_name"]), IntParam(d["warehouse_id"]), IntParam(d["quantity"]);
      if name.None? then Err(TypeError("warehouse_name"))
      else if id.None? then Err(TypeError("warehouse_id"))
      else if quantity.None? then Err(TypeError("quantity"))
      else Ok(Item(name.value, id.value, quantity.value))
  }

  /** Reading back what `toArray` wrote gives the same item. */
  lemma ItemArrayRoundTrip(x: Item)
    requires FitsPhpInt(x.warehouseId) && FitsPhpInt(x.quantity)
    ensures ItemFromArray(ItemToArray(x)) == Ok(x)
  {
  }

  /** Writing out what `fromArray` read gives the same array, for an array of exactly the three keys with native values. */
  lemma ArrayItemRoundTrip(d: Row)
    requires d.Keys == ItemKeys && d["warehouse_name"].Str? && d["warehouse_id"].Int? && d["quantity"].Int?
    requires FitsPhpInt(d["warehouse_id"].i) && FitsPhpInt(d["quantity"].i)
    ensures ItemFromArray(d).Ok? && ItemToArray(ItemFromArray(d).value) == d
  {
    var e := ItemToArray(ItemFromArray(d).value);
    assert e.Keys == d.Keys;
    assert forall k :: k in d.Keys ==> e[k] == d[k];
  }

  /** `fromWarehouse`: the warehouse's name and id with the given quantity. */
  function FromWarehouse(w: Warehouse, quantity: int): (x: Item)
    ensures ItemToArray(x) == map["warehouse_name" := Json.Str(w.name), "warehouse_id" := Json.Int(w.id),
                                  "quantity" := Json.Int(quantity)]
    ensures x.warehouseName == w.name && x.warehouseId == w.id && x.quantity == quantity
  {
    Item(w.name, w.id, quantity)
  }

  // ---- query transfer object --------------------------------------------------

  datatype QueryDto = QueryDto(contextId: int, categoryId: int, strategy: string)

  const DefaultStrategy := "base"

  /** The constructor: the strategy defaults to the base one. */
  function NewQuery(contextId: int, categoryId: int, strategy: Option<string>): (q: QueryDto)
    ensures q.contextId == contextId && q.categoryId == categoryId
    ensures q.strategy == (if strategy.Some? then strategy.value else DefaultStrategy)
  {
    QueryDto(contextId, categoryId, strategy.GetOr(DefaultStrategy))
  }

  /** `toArray`: the fields under camel-case keys. */
  function QueryToArray(q: QueryDto): (d: Row)
    ensures d.Keys == {"strategy", "contextId", "categoryId"}
  {
    map["strategy" := Json.Str(q.strategy), "contextId" := Json.Int(q.contextId), "categoryId" := Json.Int(q.categoryId)]
  }

  /** The three fields can be read back from the array. */
  lemma QueryArrayReadsBack(q: QueryDto)
    ensures var d := QueryToArray(q);
            d["strategy"] == Json.Str(q.strategy) && d["contextId"] == Json.Int(q.contextId) &&
            d["categoryId"] == Json.Int(q.categoryId)
  {
  }

  const QueryFields := ["strategy", "context_id", "category_id"]

  /**
   * The stock request's rules: `required|string|in:base` for the strategy,
   * `required|integer|min:1|exists:contexts,id` for the context and
   * `required|integer|min:1` for the category.
   */
  predicate QueryFieldValid(input: Validation.Input, contextIds: set<int>, key: string) {
    if key == "strategy" then Validation.RequiredString(input, key) == Some(DefaultStrategy)
    else
      var v := Validation.RequiredInteger(input, key);
      v.Some? && v.value >= 1 && (key == "context_id" ==> v.value in contextIds)
  }

  /** `fromRequest` after the request's validation: the validated values, integers as the rule reads them. */
  function QueryFromRequest(input: Validation.Input, contextIds: set<int>): (r: Result<QueryDto, set<string>>)
    ensures r.Err? ==> r.error != {} && forall k :: k in r.error <==> k in QueryFields && !QueryFieldValid(input, contextIds, k)
    ensures r.Ok? <==> forall k :: k in QueryFields ==> QueryFieldValid(input, contextIds, k)
    ensures r.Ok? ==> r.value.strategy == DefaultStrategy && r.value.contextId in contextIds &&
                      r.value.contextId >= 1 && r.value.categoryId >= 1
    ensures r.Ok? ==> Validation.RequiredInteger(input, "context_id") == Some(r.value.contextId) &&
                      Validation.RequiredInteger(input, "category_id") == Some(r.value.categoryId)
  {
    var errors := Validation.Failing(QueryFields, (k: string) => QueryFieldValid(input, contextIds, k));
    if errors != {} then Err(errors)
    else
      assert QueryFieldValid(input, contextIds, QueryFields[0]) && QueryFieldValid(input, contextIds, QueryFields[1]);
      assert QueryFieldValid(input, contextIds, QueryFields[2]);
      Ok(QueryDto(Validation.RequiredInteger(input, "context_id").value, Validation.RequiredInteger(input, "category_id").value,
                  Validation.RequiredString(input, "strategy").value))
  }

  /** A query the rules admit survives being sent as a request and read back. */
  lemma QueryRequestRoundTrip(q: QueryDto, contextIds: set<int>)
    requires q.strategy == DefaultStrategy && q.contextId in contextIds && q.contextId >= 1 && q.categoryId >= 1
    requires FitsPhpInt(q.contextId) && FitsPhpInt(q.categoryId)
    ensures QueryFromRequest(map["strategy" := Json.Str(q.strategy), "context_id" := Json.Int(q.contextId),
                                 "category_id" := Json.Int(q.categoryId)], contextIds) == Ok(q)
  {
    var input := map["strategy" := Json.Str(q.strategy), "context_id" := Json.Int(q.contextId),
                     "category_id" := Json.Int(q.categoryId)];
    assert !Validation.Blank(input["strategy"]) by {
      assert !Validation.IsTrimChar(q.strategy[0]);
    }
    assert QueryFieldValid(input, contextIds, "strategy");
    assert QueryFieldValid(input, contextIds, "context_id");
    assert QueryFieldValid(input, contextIds, "category_id");
  }

  // ---- the base strategy ------------------------------------------------------

  /**
   * PHP `rand(lo, hi)` with the random source made explicit: a value between
   * the two bounds, which may come in either order.
   */
  function Rand(lo: int, hi: int, roll: nat): (r: int)
    ensures (if lo <= hi then lo else hi) <= r <= (if lo <= hi then hi else lo)
  {
    var low, high := if lo <= hi then lo else hi, if lo <= hi then hi else lo;
    low + roll % (high - low + 1)
  }

  /** Every value between the bounds can be drawn. */
  lemma RandReachesEveryValue(lo: int, hi: int, v: int)
    requires lo <= v <= hi || hi <= v <= lo
    ensures exists roll: nat :: Rand(lo, hi, roll) == v
  {
    var low := if lo <= hi then lo else hi;
    var roll: nat := v - low;
    assert Rand(lo, hi, roll) == v;
  }

  /** The warehouses of one context, in stored order. */
  function InContext(warehouses: seq<Warehouse>, contextId: int): (r: seq<Warehouse>)
    ensures forall w :: w in r <==> w in warehouses && w.contextId == contextId
    ensures Seqs.IsSubsequence(r, warehouses)
  {
    Seqs.Filter(warehouses, (w: Warehouse) => w.contextId == contextId)
  }

  /** The first row of `stocks` for the warehouse, if any. */
  function FirstStock(stocks: seq<Stock>, warehouseId: int): (r: Option<Stock>)
    ensures r.None? <==> forall s :: s in stocks ==> s.warehouseId != warehouseId
    ensures r.Some? ==> r.value in stocks && r.value.warehouseId == warehouseId
  {
    if stocks == [] then None
    else if stocks[0].warehouseId == warehouseId then Some(stocks[0])
    else FirstStock(stocks[1..], warehouseId)
  }

  /** 0 without a stock row, else a draw between the row's bounds. */
  function Quantity(stock: Option<Stock>, roll: nat): (quantity: int)
    ensures Drawn(quantity, stock)
  {
    if stock.None? then 0 else Rand(stock.value.minQuantity, stock.value.maxQuantity, roll)
  }

  /** The stock rows the strategy loads: those of the category whose warehouse is among `ws`. */
  function Relevant(stocks: seq<Stock>, ws: seq<Warehouse>, categoryId: int): (r: seq<Stock>)
    ensures forall s :: s in r <==> s in stocks && s.categoryId == categoryId && s.warehouseId in Ids(ws)
  {
    var ids := Ids(ws);
    Seqs.Filter(stocks, (s: Stock) => s.categoryId == categoryId && s.warehouseId in ids)
  }

  function Ids(ws: seq<Warehouse>): (ids: set<int>)
    ensures forall w :: w in ws ==> w.id in ids
    ensures forall id :: id in ids ==> exists w :: w in ws && w.id == id
  {
    set w | w in ws :: w.id
  }

  /** The quantity lies between the row's bounds, or is 0 without a row. */
  predicate Drawn(quantity: int, stock: Option<Stock>) {
    if stock.None? then quantity == 0
    else
      var lo, hi := stock.value.minQuantity, stock.value.maxQuantity;
      (lo <= quantity <= hi) || (hi <= quantity <= lo)
  }

  /**
   * `buildResponse`: one item per warehouse of the query's context, in
   * stored order, with the quantity drawn from that warehouse's first stock
   * row for the category, or 0 without one. `roll(k)` is the random source
   * of the k-th draw.
   */
  function BuildResponse(q: QueryDto, warehouses: seq<Warehouse>, stocks: seq<Stock>, roll: nat -> nat): (items: seq<Item>)
    ensures var ws := InContext(warehouses, q.contextId);
            |items| == |ws| &&
            forall k :: 0 <= k < |ws| ==>
              items[k].warehouseName == ws[k].name && items[k].warehouseId == ws[k].id &&
              Drawn(items[k].quantity, FirstStock(Relevant(stocks, ws, q.categoryId), ws[k].id))
  {
    var ws := InContext(warehouses, q.contextId);
    var relevant := Relevant(stocks, ws, q.categoryId);
    var items := seq(|ws|, k requires 0 <= k < |ws| => FromWarehouse(ws[k], Quantity(FirstStock(relevant, ws[k].id), roll(k))));
    assert forall k :: 0 <= k < |ws| ==> items[k] == FromWarehouse(ws[k], Quantity(FirstStock(relevant, ws[k].id), roll(k)));
    items
  }

  /**
   * The answer lists a warehouse exactly when it belongs to the context; it
   * carries quantity 0 exactly when the warehouse has no stock row for the
   * category, and otherwise a value between that row's bounds.
   */
  lemma BuildResponseCoversContext(q: QueryDto, warehouses: seq<Warehouse>, stocks: seq<Stock>, roll: nat -> nat, w: Warehouse)
    requires w in warehouses
    ensures var items := BuildResponse(q, warehouses, stocks, roll);
            w.contextId == q.contextId <==> exists k :: 0 <= k < |items| && items[k] == Item(w.name, w.id, items[k].quantity) &&
                                                       InContext(warehouses, q.contextId)[k] == w
  {
    var ws := InContext(warehouses, q.contextId);
    var items := BuildResponse(q, warehouses, stocks, roll);
    if w.contextId == q.contextId {
      var k :| 0 <= k < |ws| && ws[k] == w;
      assert items[k] == Item(w.name, w.id, items[k].quantity);
    }
  }

  /** A warehouse without a stock row for the category is answered with quantity 0; one with a row, within its bounds. */
  lemma BuildResponseQuantities(q: QueryDto, warehouses: seq<Warehouse>, stocks: seq<Stock>, roll: nat -> nat, k: nat)
    requires k < |InContext(warehouses, q.contextId)|
    ensures var w := InContext(warehouses, q.contextId)[k];
            var items := BuildResponse(q, warehouses, stocks, roll);
            ((forall s :: s in stocks ==> s.warehouseId != w.id || s.categoryId != q.categoryId) ==> items[k].quantity == 0) &&
            (forall s :: s in stocks && s.warehouseId == w.id && s.categoryId == q.categoryId &&
                         (forall t :: t in stocks && t.warehouseId == w.id && t.categoryId == q.categoryId ==> t == s) ==>
               Drawn(items[k].quantity, Some(s)))
  {
    var ws := InContext(warehouses, q.contextId);
    var w := ws[k];
    assert w in ws;
  }

  // ---- strategy dispatch ------------------------------------------------------

  /** The one strategy class the application declares. */
  const BaseStrategyClass := "App\\Services\\Warehouse\\Strategy\\WarehouseBaseStrategy"

  /** The class name the service builds from the strategy name. */
  function StrategyClassAsWritten(strategy: string): string {
    "App\\Service\\Warehouse\\Strategy\\Warehouse" + strategy + "Strategy"
  }

  datatype ServiceError = InvalidStrategy

  /**
   * `getWarehouseForCategory` of the service as written: a class that does
   * not exist is an error; the base class answers with its response.
   * Class lookup is by exact name, as the autoloader resolves it to a file.
   */
  function ServiceAsWritten(q: QueryDto, warehouses: seq<Warehouse>, stocks: seq<Stock>, roll: nat -> nat): (r: Result<seq<Item>, ServiceError>)
    ensures r.Ok? <==> StrategyClassAsWritten(q.strategy) == BaseStrategyClass
  {
    if StrategyClassAsWritten(q.strategy) != BaseStrategyClass then Err(InvalidStrategy)
    else Ok(BuildResponse(q, warehouses, stocks, roll))
  }

  /**
   * The built name says "Service" where the namespace says "Services", so no
   * strategy name reaches the base class, not even under a case-insensitive
   * lookup: every call fails.
   */
  lemma ServiceAsWrittenAlwaysFails(q: QueryDto, warehouses: seq<Warehouse>, stocks: seq<Stock>, roll: nat -> nat)
    ensures ServiceAsWritten(q, warehouses, stocks, roll) == Err(InvalidStrategy)
    ensures Text.Lower(StrategyClassAsWritten(q.strategy)) != Text.Lower(BaseStrategyClass)
  {
    var built := StrategyClassAsWritten(q.strategy);
    assert built[11] == '\\' && BaseStrategyClass[11] == 's';
    assert Text.Lower(built)[11] != Text.Lower(BaseStrategyClass)[11];
  }

  /** The class name as intended: the declared namespace and the strategy name with its first letter upper-cased. */
  function StrategyClass(strategy: string): string {
    "App\\Services\\Warehouse\\Strategy\\Warehouse" + Text.UpperFirst(strategy) + "Strategy"
  }

  /** The service with the intended class name. */
  function Service(q: QueryDto, warehouses: seq<Warehouse>, stocks: seq<Stock>, roll: nat -> nat): (r: Result<seq<Item>, ServiceError>)
    ensures r.Ok? ==> r.value == BuildResponse(q, warehouses, stocks, roll)
  {
    if StrategyClass(q.strategy) != BaseStrategyClass then Err(InvalidStrategy)
    else Ok(BuildResponse(q, warehouses, stocks, roll))
  }

  /** The intended service reaches the base strategy exactly for the names "base" and "Base". */
  lemma ServiceDispatchIff(q: QueryDto, warehouses: seq<Warehouse>, stocks: seq<Stock>, roll: nat -> nat)
    ensures Service(q, warehouses, stocks, roll).Ok? <==> q.strategy == "base" || q.strategy == "Base"
  {
    var prefix := "App\\Services\\Warehouse\\Strategy\\Warehouse";
    var u := Text.UpperFirst(q.strategy);
    if StrategyClass(q.strategy) == BaseStrategyClass {
      assert |u| == 4;
      assert u == StrategyClass(q.strategy)[|prefix|..|prefix| + 4];
      assert u == "Base";
      assert q.strategy[1..] == "ase";
      assert q.strategy == [q.strategy[0]] + q.strategy[1..];
    }
    if q.strategy == "base" {
      assert u == "Base";
    }
  }

  /** Every query the request validation admits is answered by the intended service. */
  lemma ValidatedQueryIsAnswered(input: Validation.Input, contextIds: set<int>, warehouses: seq<Warehouse>, stocks: seq<Stock>, roll: nat -> nat)
    requires QueryFromRequest(input, contextIds).Ok?
    ensures var q := QueryFromRequest(input, contextIds).value;
            Service(q, warehouses, stocks, roll) == Ok(BuildResponse(q, warehouses, stocks, roll))
  {
    ServiceDispatchIff(QueryFromRequest(input, contextIds).value, warehouses, stocks, roll);
  }

  // ---- the per-category endpoint ---------------------------------------------

  /** The warehouse a stock row belongs to, by id. */
  function WarehouseOf(warehouses: seq<Warehouse>, id: int): (r: Option<Warehouse>)
    ensures r.None? <==> forall w :: w in warehouses ==> w.id != id
    ensures r.Some? ==> r.value in warehouses && r.value.id == id
  {
    if warehouses == [] then None
    else if warehouses[0].id == id then Some(warehouses[0])
    else WarehouseOf(warehouses[1..], id)
  }

  /** A stock row of the category whose warehouse belongs to the context. */
  predicate Listed(warehouses: seq<Warehouse>, s: Stock, contextId: int, categoryId: int) {
    s.categoryId == categoryId && WarehouseOf(warehouses, s.warehouseId).Some? &&
    WarehouseOf(warehouses, s.warehouseId).value.contextId == contextId
  }

  /**
   * `getWarehouseForCategory` of the controller: one item per stock row of
   * the category whose warehouse is in the context, with a quantity drawn
   * between the row's bounds. `roll(k)` is the random source of the k-th draw.
   */
  function PerCategory(warehouses: seq<Warehouse>, stocks: seq<Stock>, contextId: int, categoryId: int, roll: nat -> nat): (items: seq<Item>)
    ensures var rows := Seqs.Filter(stocks, (s: Stock) => Listed(warehouses, s, contextId, categoryId));
            |items| == |rows| &&
            forall k :: 0 <= k < |rows| ==>
              var w := WarehouseOf(warehouses, rows[k].warehouseId).value;
              items[k].warehouseName == w.name && items[k].warehouseId == rows[k].warehouseId &&
              w.contextId == contextId && rows[k].categoryId == categoryId &&
              Drawn(items[k].quantity, Some(rows[k]))
  {
    var rows := Seqs.Filter(stocks, (s: Stock) => Listed(warehouses, s, contextId, categoryId));
    var items := seq(|rows|, k requires 0 <= k < |rows| => PerCategoryItem(warehouses, rows[k], roll(k)));
    assert forall k :: 0 <= k < |rows| ==> items[k] == PerCategoryItem(warehouses, rows[k], roll(k));
    assert forall k :: 0 <= k < |rows| ==> rows[k] in stocks && Listed(warehouses, rows[k], contextId, categoryId);
    items
  }

  /** The item the endpoint builds for one listed row: its warehouse's name and id, and a draw between its bounds. */
  function PerCategoryItem(warehouses: seq<Warehouse>, s: Stock, roll: nat): (x: Item)
    requires WarehouseOf(warehouses, s.warehouseId).Some?
    ensures x.warehouseName == WarehouseOf(warehouses, s.warehouseId).value.name && x.warehouseId == s.warehouseId
    ensures Drawn(x.quantity, Some(s))
  {
    var w := WarehouseOf(warehouses, s.warehouseId).value;
    Item(w.name, w.id, Rand(s.minQuantity, s.maxQuantity, roll))
  }

  /** Unlike the strategy, the endpoint leaves out a warehouse of the context that has no row for the category. */
  lemma PerCategoryOmitsWarehousesWithoutStock(warehouses: seq<Warehouse>, stocks: seq<Stock>, contextId: int, categoryId: int,
                                               roll: nat -> nat, w: Warehouse)
    requires w in warehouses && w.contextId == contextId
    requires forall s :: s in stocks ==> s.warehouseId != w.id || s.categoryId != categoryId
    ensures forall x :: x in PerCategory(warehouses, stocks, contextId, categoryId, roll) ==> x.warehouseId != w.id
    ensures exists x :: x in BuildResponse(QueryDto(contextId, categoryId, DefaultStrategy), warehouses, stocks, roll) &&
                        x.warehouseId == w.id && x.quantity == 0
  {
    var items := PerCategory(warehouses, stocks, contextId, categoryId, roll);
    var rows := Seqs.Filter(stocks, (s: Stock) => Listed(warehouses, s, contextId, categoryId));
    forall x | x in items ensures x.warehouseId != w.id {
      var k :| 0 <= k < |items| && items[k] == x;
      assert rows[k] in stocks;
    }
    var q := QueryDto(contextId, categoryId, DefaultStrategy);
    var ws := InContext(warehouses, contextId);
    var k :| 0 <= k < |ws| && ws[k] == w;
    BuildResponseQuantities(q, warehouses, stocks, roll, k);
    assert BuildResponse(q, warehouses, stocks, roll)[k] in BuildResponse(q, warehouses, stocks, roll);
  }
}
