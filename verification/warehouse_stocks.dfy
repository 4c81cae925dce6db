/**
 * The warehouse stock table: per (warehouse, category) pair the bounds the
 * random quantity is drawn from. Creation refuses a second row for a pair;
 * update relies on the table's unique index instead; deletion removes one
 * row by id.
 */
module WarehouseStocks {
  import opened Wrappers
  import Json
  import Seqs
  import Validation

  datatype Warehouse = Warehouse(id: int, name: string, contextId: int)

  datatype Stock = Stock(id: int, warehouseId: int, categoryId: int, maxQuantity: int, minQuantity: int)

  /** The stock rows with the auto-increment counter. */
  datatype Table = Table(stocks: seq<Stock>, nextId: int)

  /** The validated columns of a create or update request. */
  datatype Fields = Fields(warehouseId: int, categoryId: int, maxQuantity: int, minQuantity: int)

  /**
   * Why a request fails: a validation failure (422), a pair that already
   * exists (400), an unknown id (404), or the unique index refusing the
   * write (a database error, 500).
   */
  datatype Failure = Invalid(fields: set<string>) | AlreadyExists | NotFound | UniqueViolation

  function Status(f: Failure): int {
    match f
    case Invalid(_) => 422
    case AlreadyExists => 400
    case NotFound => 404
    case UniqueViolation => 500
  }

  /** No two rows share a (warehouse, category) pair. */
  predicate UniquePairs(stocks: seq<Stock>) {
    forall i, j :: 0 <= i < j < |stocks| ==>
      stocks[i].warehouseId != stocks[j].warehouseId || stocks[i].categoryId != stocks[j].categoryId
  }

  /** Ids are distinct and below the counter, and pairs are unique. */
  predicate WellFormed(t: Table) {
    (forall i :: 0 <= i < |t.stocks| ==> t.stocks[i].id < t.nextId) &&
    (forall i, j :: 0 <= i < j < |t.stocks| ==> t.stocks[i].id != t.stocks[j].id) &&
    UniquePairs(t.stocks)
  }

  predicate HasPair(stocks: seq<Stock>, warehouseId: int, categoryId: int) {
    exists i :: 0 <= i < |stocks| && stocks[i].warehouseId == warehouseId && stocks[i].categoryId == categoryId
  }

  predicate HasId(stocks: seq<Stock>, id: int) {
    exists i :: 0 <= i < |stocks| && stocks[i].id == id
  }

  const StockFields := ["warehouse_id", "category_id", "max_quantity", "min_quantity"]

  /**
   * One field under its rules: `required|integer|min:1|exists:warehouses,id`
   * for the warehouse, `required|integer|min:1` for the category and
   * `required|integer|min:0` for both quantities.
   */
  predicate FieldValid(input: Validation.Input, warehouseIds: set<int>, key: string) {
    var v := Validation.RequiredInteger(input, key);
    v.Some? &&
    if key == "warehouse_id" then v.value >= 1 && v.value in warehouseIds
    else if key == "category_id" then v.value >= 1
    else v.value >= 0
  }

  /** The request validation shared by create and update; the bounds are not compared with each other. */
  function Validate(input: Validation.Input, warehouseIds: set<int>): (r: Result<Fields, set<string>>)
    ensures r.Err? ==> r.error != {} && forall k :: k in r.error <==> k in StockFields && !FieldValid(input, warehouseIds, k)
    ensures r.Ok? <==> forall k :: k in StockFields ==> FieldValid(input, warehouseIds, k)
    ensures r.Ok? ==> r.value.warehouseId in warehouseIds && r.value.categoryId >= 1 &&
                      r.value.maxQuantity >= 0 && r.value.minQuantity >= 0
    ensures r.Ok? ==> Validation.RequiredInteger(input, "warehouse_id") == Some(r.value.warehouseId) &&
                      Validation.RequiredInteger(input, "category_id") == Some(r.value.categoryId) &&
                      Validation.RequiredInteger(input, "max_quantity") == Some(r.value.maxQuantity) &&
                      Validation.RequiredInteger(input, "min_quantity") == Some(r.value.minQuantity)
  {
    var errors := Validation.Failing(StockFields, (k: string) => FieldValid(input, warehouseIds, k));
    if errors != {} then Err(errors)
    else
      assert FieldValid(input, warehouseIds, StockFields[0]) && FieldValid(input, warehouseIds, StockFields[1]);
      assert FieldValid(input, warehouseIds, StockFields[2]) && FieldValid(input, warehouseIds, StockFields[3]);
      Ok(Fields(Validation.RequiredInteger(input, "warehouse_id").value,
                Validation.RequiredInteger(input, "category_id").value,
                Validation.RequiredInteger(input, "max_quantity").value,
                Validation.RequiredInteger(input, "min_quantity").value))
  }

  function RowOf(id: int, f: Fields): Stock {
    Stock(id, f.warehouseId, f.categoryId, f.maxQuantity, f.minQuantity)
  }

  /**
   * `store`: after validation, a request for a pair that already has a row
   * is refused with 400 and nothing is created; otherwise exactly one row
   * is appended. Requests are taken one at a time here; `StoreInterleaved`
   * lets another create commit between the check and the insert.
   */
  function Store(t: Table, warehouseIds: set<int>, input: Validation.Input): (r: Result<(Table, Stock), Failure>)
    ensures Validate(input, warehouseIds).Err? ==> r == Err(Invalid(Validate(input, warehouseIds).error))
    ensures r == Err(AlreadyExists) <==>
              (Validate(input, warehouseIds).Ok? &&
               var f := Validate(input, warehouseIds).value;
               HasPair(t.stocks, f.warehouseId, f.categoryId))
    ensures r.Ok? ==> var f := Validate(input, warehouseIds).value;
                      r.value.1 == RowOf(t.nextId, f) &&
                      r.value.0 == Table(t.stocks + [r.value.1], t.nextId + 1)
  {
    var v := Validate(input, warehouseIds);
    if v.Err? then Err(Invalid(v.error))
    else if HasPair(t.stocks, v.value.warehouseId, v.value.categoryId) then Err(AlreadyExists)
    else
      var row := RowOf(t.nextId, v.value);
      Ok((Table(t.stocks + [row], t.nextId + 1), row))
  }

  /** Creation keeps ids distinct and pairs unique. */
  lemma StoreKeepsWellFormed(t: Table, warehouseIds: set<int>, input: Validation.Input)
    requires WellFormed(t)
    ensures Store(t, warehouseIds, input).Ok? ==> WellFormed(Store(t, warehouseIds, input).value.0)
  {
    var r := Store(t, warehouseIds, input);
    if r.Ok? {
      var row := r.value.1;
      assert !HasPair(t.stocks, row.warehouseId, row.categoryId);
    }
  }

  /** Index of the row with id `id`, given that one exists. */
  function IndexOfId(stocks: seq<Stock>, id: int): (i: nat)
    requires HasId(stocks, id)
    ensures i < |stocks| && stocks[i].id == id
    ensures forall j :: 0 <= j < i ==> stocks[j].id != id
  {
    if stocks[0].id == id then 0
    else
      assert HasId(stocks[1..], id) by {
        var j :| 0 <= j < |stocks| && stocks[j].id == id;
        assert stocks[1..][j - 1].id == id;
      }
      1 + IndexOfId(stocks[1..], id)
  }

  /**
   * The `create` insert on its own: the table's unique index refuses a row
   * whose pair is already stored, as a database error; otherwise the row
   * gets the next id.
   */
  function Insert(t: Table, f: Fields): (r: Result<(Table, Stock), Failure>)
    ensures r.Err? <==> HasPair(t.stocks, f.warehouseId, f.categoryId)
    ensures r.Err? ==> r.error == UniqueViolation
    ensures r.Ok? ==> r.value.1 == RowOf(t.nextId, f) && r.value.0 == Table(t.stocks + [r.value.1], t.nextId + 1)
  {
    if HasPair(t.stocks, f.warehouseId, f.categoryId) then Err(UniqueViolation)
    else
      var row := RowOf(t.nextId, f);
      Ok((Table(t.stocks + [row], t.nextId + 1), row))
  }

  /** The unique index alone keeps the table well formed, whatever check ran before the insert. */
  lemma InsertKeepsWellFormed(t: Table, f: Fields)
    requires WellFormed(t)
    ensures Insert(t, f).Ok? ==> WellFormed(Insert(t, f).value.0)
  {
  }

  /**
   * `store` when other requests may commit between its `exists()` check
   * and its `create`: the check reads the table as it was (`seen`), the
   * insert writes into the table as it is (`t`).
   */
  function StoreInterleaved(seen: Table, t: Table, warehouseIds: set<int>, input: Validation.Input): (r: Result<(Table, Stock), Failure>)
    ensures Validate(input, warehouseIds).Err? ==> r == Err(Invalid(Validate(input, warehouseIds).error))
    ensures r == Err(AlreadyExists) <==>
              (Validate(input, warehouseIds).Ok? &&
               var f := Validate(input, warehouseIds).value;
               HasPair(seen.stocks, f.warehouseId, f.categoryId))
    ensures r == Err(UniqueViolation) <==>
              (Validate(input, warehouseIds).Ok? &&
               var f := Validate(input, warehouseIds).value;
               !HasPair(seen.stocks, f.warehouseId, f.categoryId) && HasPair(t.stocks, f.warehouseId, f.categoryId))
    ensures r.Ok? ==> r == Insert(t, Validate(input, warehouseIds).value)
  {
    var v := Validate(input, warehouseIds);
    if v.Err? then Err(Invalid(v.error))
    else if HasPair(seen.stocks, v.value.warehouseId, v.value.categoryId) then Err(AlreadyExists)
    else Insert(t, v.value)
  }

  /** With nothing committed in between, the interleaved store is the sequential one and never hits the index. */
  lemma StoreIsUninterleaved(t: Table, warehouseIds: set<int>, input: Validation.Input)
    ensures StoreInterleaved(t, t, warehouseIds, input) == Store(t, warehouseIds, input)
    ensures StoreInterleaved(t, t, warehouseIds, input) != Err(UniqueViolation)
  {
  }

  /**
   * Two creates of one new pair that both ran their `exists()` check before
   * either committed: the first is stored, and the second passes the check
   * but is refused by the unique index with 500 instead of the 400 the
   * check was meant to give.
   */
  lemma ConcurrentCreatesOfOnePair(t: Table, warehouseIds: set<int>, a: Validation.Input, b: Validation.Input)
    requires Validate(a, warehouseIds).Ok? && Validate(b, warehouseIds).Ok?
    requires var fa, fb := Validate(a, warehouseIds).value, Validate(b, warehouseIds).value;
             fa.warehouseId == fb.warehouseId && fa.categoryId == fb.categoryId &&
             !HasPair(t.stocks, fa.warehouseId, fa.categoryId)
    ensures Store(t, warehouseIds, a).Ok?
    ensures var after := Store(t, warehouseIds, a).value.0;
            StoreInterleaved(t, after, warehouseIds, b) == Err(UniqueViolation) &&
            Status(StoreInterleaved(t, after, warehouseIds, b).error) == 500
  {
    var after := Store(t, warehouseIds, a).value.0;
    var fb := Validate(b, warehouseIds).value;
    assert after.stocks[|t.stocks|].warehouseId == fb.warehouseId && after.stocks[|t.stocks|].categoryId == fb.categoryId;
    assert HasPair(after.stocks, fb.warehouseId, fb.categoryId);
  }

  /** Another row than the one at index `i` holds the pair. */
  predicate PairTakenElsewhere(stocks: seq<Stock>, i: nat, warehouseId: int, categoryId: int) {
    exists j :: 0 <= j < |stocks| && j != i && stocks[j].warehouseId == warehouseId && stocks[j].categoryId == categoryId
  }

  /**
   * `update`: validation first, then an unknown id fails as not found. The
   * action does not look for a clashing pair itself; the unique index
   * refuses such a write as a database error. Otherwise the row takes the
   * validated values and keeps its id.
   */
  function Update(t: Table, warehouseIds: set<int>, id: int, input: Validation.Input): (r: Result<Table, Failure>)
    ensures Validate(input, warehouseIds).Err? ==> r == Err(Invalid(Validate(input, warehouseIds).error))
    ensures Validate(input, warehouseIds).Ok? && !HasId(t.stocks, id) ==> r == Err(NotFound)
    ensures r != Err(AlreadyExists)
    ensures r == Err(UniqueViolation) <==>
              (Validate(input, warehouseIds).Ok? && HasId(t.stocks, id) &&
               var f := Validate(input, warehouseIds).value;
               PairTakenElsewhere(t.stocks, IndexOfId(t.stocks, id), f.warehouseId, f.categoryId))
    ensures r.Ok? ==> var i := IndexOfId(t.stocks, id);
                      r.value == Table(t.stocks[i := RowOf(id, Validate(input, warehouseIds).value)], t.nextId)
  {
    var v := Validate(input, warehouseIds);
    if v.Err? then Err(Invalid(v.error))
    else if !HasId(t.stocks, id) then Err(NotFound)
    else
      var i := IndexOfId(t.stocks, id);
      if PairTakenElsewhere(t.stocks, i, v.value.warehouseId, v.value.categoryId) then Err(UniqueViolation)
      else Ok(Table(t.stocks[i := RowOf(id, v.value)], t.nextId))
  }

  /** An update keeps ids distinct and pairs unique. */
  lemma UpdateKeepsWellFormed(t: Table, warehouseIds: set<int>, id: int, input: Validation.Input)
    requires WellFormed(t)
    ensures Update(t, warehouseIds, id, input).Ok? ==> WellFormed(Update(t, warehouseIds, id, input).value)
  {
  }

  /** A clashing pair is refused by create with 400 but reaches the database on update, which fails with 500. */
  lemma DuplicatePairStatuses(t: Table, warehouseIds: set<int>, id: int, input: Validation.Input)
    requires Validate(input, warehouseIds).Ok?
    requires var f := Validate(input, warehouseIds).value;
             HasPair(t.stocks, f.warehouseId, f.categoryId) && HasId(t.stocks, id) &&
             var own := t.stocks[IndexOfId(t.stocks, id)];
             own.warehouseId != f.warehouseId || own.categoryId != f.categoryId
    ensures Store(t, warehouseIds, input).Err? && Status(Store(t, warehouseIds, input).error) == 400
    ensures Update(t, warehouseIds, id, input).Err? && Status(Update(t, warehouseIds, id, input).error) == 500
  {
    var f := Validate(input, warehouseIds).value;
    var j :| 0 <= j < |t.stocks| && t.stocks[j].warehouseId == f.warehouseId && t.stocks[j].categoryId == f.categoryId;
    assert PairTakenElsewhere(t.stocks, IndexOfId(t.stocks, id), f.warehouseId, f.categoryId);
  }

  /** `destroy`: the row with that id is removed and nothing else, or not found. */
  function Destroy(t: Table, id: int): (r: Result<Table, Failure>)
    ensures r.Err? <==> !HasId(t.stocks, id)
    ensures r.Err? ==> r.error == NotFound
    ensures r.Ok? ==> r.value.nextId == t.nextId &&
                      forall s :: s in r.value.stocks <==> s in t.stocks && s.id != id
    ensures r.Ok? ==> Seqs.IsSubsequence(r.value.stocks, t.stocks)
  {
    if !HasId(t.stocks, id) then Err(NotFound)
    else Ok(Table(Seqs.Filter(t.stocks, (s: Stock) => s.id != id), t.nextId))
  }

  /** With distinct ids, deleting removes exactly one row. */
  lemma {:induction false} DestroyRemovesOne(t: Table, id: int)
    requires WellFormed(t) && HasId(t.stocks, id)
    ensures |Destroy(t, id).value.stocks| == |t.stocks| - 1
  {
    var i := IndexOfId(t.stocks, id);
    FilterDropsOne(t.stocks, id, i);
  }

  lemma {:induction false} FilterDropsOne(stocks: seq<Stock>, id: int, i: nat)
    requires i < |stocks| && stocks[i].id == id
    requires forall j :: 0 <= j < |stocks| && j != i ==> stocks[j].id != id
    ensures |Seqs.Filter(stocks, (s: Stock) => s.id != id)| == |stocks| - 1
  {
    if i == 0 {
      Seqs.FilterKeepsAll(stocks[1..], (s: Stock) => s.id != id);
    } else {
      FilterDropsOne(stocks[1..], id, i - 1);
    }
  }

  /** Deletion keeps the table well formed. */
  lemma DestroyKeepsWellFormed(t: Table, id: int)
    requires WellFormed(t)
    ensures Destroy(t, id).Ok? ==> WellFormed(Destroy(t, id).value)
  {
    if HasId(t.stocks, id) {
      var r := Destroy(t, id).value.stocks;
      SubsequencePreservesWellFormed(r, t.stocks, t.nextId);
    }
  }

  lemma {:induction false} SubsequencePreservesWellFormed(sub: seq<Stock>, s: seq<Stock>, nextId: int)
    requires Seqs.IsSubsequence(sub, s) && WellFormed(Table(s, nextId))
    ensures WellFormed(Table(sub, nextId))
    decreases |s|
  {
    if sub != [] {
      assert WellFormed(Table(s[1..], nextId));
      if sub[0] == s[0] && Seqs.IsSubsequence(sub[1..], s[1..]) {
        SubsequencePreservesWellFormed(sub[1..], s[1..], nextId);
        Seqs.SubsequenceMembers(sub[1..], s[1..]);
        forall j | 0 < j < |sub| ensures sub[0].id != sub[j].id && (sub[0].warehouseId != sub[j].warehouseId || sub[0].categoryId != sub[j].categoryId) {
          assert sub[1..][j - 1] == sub[j];
          assert sub[j] in s[1..];
          var k :| 0 <= k < |s[1..]| && s[1..][k] == sub[j];
          assert s[k + 1] == sub[j];
        }
      } else {
        SubsequencePreservesWellFormed(sub, s[1..], nextId);
      }
    }
  }
}
