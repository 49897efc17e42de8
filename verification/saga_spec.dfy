/**
 The product-create saga (gateway/internal/tx/product_create.go) and its two participants
 (services/product-service/biz/service/saga.go, services/inventory-service/biz/service/saga.go): what is built from the
 request, and what each remote call does to the rows of this workflow.
 */
module SagaSpec {
  import opened Prelude

  const DRAFT := 0
  const OFFLINE := 1
  const ONLINE := 2

  datatype SkuInput = SkuInput(initialStock: Option<int>)

  datatype Request = Request(operatorId: int, status: int, skus: seq<SkuInput>)

  /** The id of a created SKU; a nil pointer in the answer is None. */
  type Sku = Option<int>

  datatype Created = Created(productId: int, skus: seq<Sku>)

  datatype StockItem = StockItem(skuId: int, total: int)

  function SkuId(s: Sku): int {
    if s.None? then 0 else s.value
  }

  function StockOf(s: SkuInput): int {
    if s.initialStock.None? then 0 else s.initialStock.value
  }

  /** One stock item per created SKU, in order; none at all unless both lists are nonempty and of the same length. */
  function InitItems(asked: seq<SkuInput>, skus: seq<Sku>): seq<StockItem> {
    if asked == [] || skus == [] || |asked| != |skus| then []
    else seq(|asked|, k requires 0 <= k < |asked| => StockItem(SkuId(skus[k]), StockOf(asked[k])))
  }

  function SkuIds(skus: seq<Sku>): seq<int> {
    if skus == [] then []
    else SkuIds(skus[..|skus| - 1]) + (if skus[|skus| - 1].None? then [] else [skus[|skus| - 1].value])
  }

  function ItemIds(items: seq<StockItem>): (ids: seq<int>)
    ensures |ids| == |items|
  {
    seq(|items|, k requires 0 <= k < |items| => items[k].skuId)
  }

  /** The stock rows of a list of items. */
  function Rows(items: seq<StockItem>): map<int, int> {
    if items == [] then map[]
    else Rows(items[..|items| - 1])[items[|items| - 1].skuId := items[|items| - 1].total]
  }

  /** The rows the calls of one workflow read and write. */
  datatype World = World(
    product: Option<int>,       // status of the product row
    createLog: Option<int>,     // transaction branch row of the creation: the product id
    createUndone: bool,         // compensation row of the creation
    stocks: map<int, int>,      // the stock table
    initLog: Option<seq<int>>,  // transaction branch row of the stock initialisation: its SKU ids
    initUndone: bool)

  predicate ValidStatus(status: int) {
    status == DRAFT || status == OFFLINE || status == ONLINE
  }

  /** A product meant to be online is created offline. */
  function InitialStatus(target: int): int {
    if target == ONLINE then OFFLINE else target
  }

  predicate ItemOk(i: StockItem) {
    i.skuId > 0 && i.total >= 0
  }

  predicate Insertable(stocks: map<int, int>, items: seq<StockItem>) {
    (forall k :: 0 <= k < |items| ==> items[k].skuId !in stocks) &&
    (forall j, k :: 0 <= j < k < |items| ==> items[j].skuId != items[k].skuId)
  }

  // The participants. Each answers with the new rows and whether the code was OK.

  /** accepts: what else the product service checks about the product holds. made: what it generates. */
  function CreateProduct(w: World, target: int, accepts: bool, made: Created): (World, bool) {
    if w.createUndone then (w, false)
    else if w.createLog.Some? then (w, w.product.Some?)
    else if !accepts || !ValidStatus(InitialStatus(target)) then (w, false)
    else (w.(product := Some(InitialStatus(target)), createLog := Some(made.productId)), true)
  }

  /** Without a creation on record the compensation is only noted, so that a late creation is refused. */
  function UndoCreate(w: World, productId: int, made: Created): (World, bool) {
    if w.createUndone then (w, true)
    else if w.createLog.None? then (w.(createUndone := true), true)
    else
      var target := if productId <= 0 then w.createLog.value else productId;
      (w.(createUndone := true, product := if target == made.productId then None else w.product), true)
  }

  function InitStocks(w: World, items: seq<StockItem>): (World, bool) {
    if items == [] || w.initUndone then (w, false)
    else if w.initLog.Some? then (w, true)
    else if !(forall k :: 0 <= k < |items| ==> ItemOk(items[k])) || !Insertable(w.stocks, items) then (w, false)
    else (w.(stocks := w.stocks + Rows(items), initLog := Some(ItemIds(items))), true)
  }

  /** The ids on record win over the ids in the call. */
  function UndoInit(w: World, ids: seq<int>): (World, bool) {
    if w.initUndone then (w, true)
    else
      var gone := if w.initLog.Some? then w.initLog.value else ids;
      (w.(initUndone := true, stocks := w.stocks - (set i | i in gone)), true)
  }

  function ChangeStatus(w: World, productId: int, status: int, made: Created): (World, bool) {
    if productId <= 0 || !ValidStatus(status) || productId != made.productId || w.product.None? then (w, false)
    else (w.(product := Some(status)), true)
  }

  // What is compensated is what was initialised.

  lemma {:induction false} SkuIdsLength(skus: seq<Sku>)
    ensures |SkuIds(skus)| <= |skus|
    ensures |SkuIds(skus)| == |skus| <==> forall k :: 0 <= k < |skus| ==> skus[k].Some?
    decreases |skus|
  {
    if skus != [] {
      var front := skus[..|skus| - 1];
      SkuIdsLength(front);
      assert forall k :: 0 <= k < |front| ==> front[k] == skus[k];
    }
  }

  lemma {:induction false} SkuIdsValues(skus: seq<Sku>)
    requires forall k :: 0 <= k < |skus| ==> skus[k].Some?
    ensures |SkuIds(skus)| == |skus| && forall k :: 0 <= k < |skus| ==> SkuIds(skus)[k] == skus[k].value
    decreases |skus|
  {
    if skus != [] { SkuIdsValues(skus[..|skus| - 1]); }
  }

  /** For answers of matching count, the two lists of ids agree exactly when no created SKU is nil. */
  lemma CompensatesWhatItInitialised(asked: seq<SkuInput>, skus: seq<Sku>)
    requires |asked| == |skus|
    ensures SkuIds(skus) == ItemIds(InitItems(asked, skus)) <==> forall k :: 0 <= k < |skus| ==> skus[k].Some?
  {
    SkuIdsLength(skus);
    if forall k :: 0 <= k < |skus| ==> skus[k].Some? {
      SkuIdsValues(skus);
      assert SkuIds(skus) == ItemIds(InitItems(asked, skus));
    }
  }

  /** The length check after the creation lets through exactly the answers of matching count and the empty answer. */
  lemma CountCheckPasses(asked: seq<SkuInput>, skus: seq<Sku>)
    ensures |InitItems(asked, skus)| == |skus| <==> |asked| == |skus| || skus == []
  {
  }

  // Inserted rows and their removal.

  lemma {:induction false} RowsKeys(items: seq<StockItem>)
    ensures Rows(items).Keys == set k | 0 <= k < |items| :: items[k].skuId
    decreases |items|
  {
    if items != [] {
      var front := items[..|items| - 1];
      RowsKeys(front);
      var all := set k | 0 <= k < |items| :: items[k].skuId;
      assert all == (set k | 0 <= k < |front| :: front[k].skuId) + {items[|items| - 1].skuId} by {
        forall id | id in all ensures id in (set k | 0 <= k < |front| :: front[k].skuId) + {items[|items| - 1].skuId} {
          var k :| 0 <= k < |items| && items[k].skuId == id;
          if k < |front| { assert front[k].skuId == id; }
        }
      }
    }
  }

  lemma {:induction false} RowsTotals(items: seq<StockItem>, k: nat)
    requires k < |items| && Insertable(map[], items)
    ensures items[k].skuId in Rows(items) && Rows(items)[items[k].skuId] == items[k].total
    decreases |items|
  {
    if k < |items| - 1 { RowsTotals(items[..|items| - 1], k); }
  }

  /** Deleting the rows of a batch that could be inserted restores the table. */
  lemma RowsRemoved(stocks: map<int, int>, items: seq<StockItem>)
    requires Insertable(stocks, items)
    ensures (stocks + Rows(items)) - (set i | i in ItemIds(items)) == stocks
  {
    var gone := set i | i in ItemIds(items);
    RowsKeys(items);
    assert gone == Rows(items).Keys by {
      forall k | 0 <= k < |items| ensures items[k].skuId in gone {
        assert ItemIds(items)[k] in ItemIds(items);
      }
    }
    assert forall id :: id in gone ==> id !in stocks;
  }

  /** Compensating an initialisation restores the stock table, whatever ids the call carries. */
  lemma UndoInitRestores(w: World, items: seq<StockItem>, ids: seq<int>)
    requires w.initLog.None? && !w.initUndone && InitStocks(w, items).1
    ensures UndoInit(InitStocks(w, items).0, ids).0.stocks == w.stocks
  {
    RowsRemoved(w.stocks, items);
  }
}
