/** The inventory service: stock-in, stock-out (at one location, or greedily
    across all of a product's locations), the inventory overview and the
    low-stock alerts. Each mutating operation is one transaction: on an
    error nothing is written. */
module InventoryService {
  import opened Models
  import opened Text
  import opened Ledger
  import opened Allocation
  import opened Preservation
  import opened Aggregation
  import opened Tables

  /** Receive `quantity` units of a product at `location`: add them to the
      product's record there, or open a record there with the default
      safety stock, and log one IN movement for the record. Returns the
      record as it now stands. */
  method StockIn(store: Store, productId: nat, quantity: int, location: string, remarks: Option<string>)
    returns (r: Result<Item>)
    requires store.Valid()
    requires quantity > 0 && ValidLocation(location)
    modifies store
    ensures store.Valid()
    ensures store.products == old(store.products) && store.nextProductId == old(store.nextProductId)
    ensures productId !in old(store.products) ==>
      && r == Err(ProductNotFound(UnknownProduct))
      && store.items == old(store.items) && store.movements == old(store.movements)
      && store.nextItemId == old(store.nextItemId)
    ensures productId in old(store.products) ==>
      var found := FindRecord(old(store.items), productId, location);
      && r.Ok?
      && (found.Some? ==>
            var k := found.value;
            && store.items == old(store.items)[k := old(store.items)[k].(quantity := old(store.items)[k].quantity + quantity)]
            && store.nextItemId == old(store.nextItemId)
            && r.value == store.items[k])
      && (found.None? ==>
            && store.items == old(store.items) + [Item(old(store.nextItemId), productId, location, quantity, DEFAULT_SAFETY_STOCK)]
            && store.nextItemId == old(store.nextItemId) + 1
            && r.value == store.items[|old(store.items)|])
      && store.movements == old(store.movements) + [Movement(productId, r.value.id, IN, quantity, remarks)]
  {
    if productId !in store.products {
      return Err(ProductNotFound(UnknownProduct));
    }
    var found := FindRecord(store.items, productId, location);
    if found.Some? {
      var k := found.value;
      store.Apply(k, Movement(productId, store.items[k].id, IN, quantity, remarks));
      r := Ok(store.items[k]);
    } else {
      store.Open(productId, location, quantity, remarks);
      r := Ok(store.items[|store.items| - 1]);
    }
  }

  /** Issue `quantity` units of a product. With a location, take them all
      from the product's record there; without, walk the product's records
      holding stock in id order and take from each until the request is
      met, logging one OUT movement per record taken from. Returns the
      first record taken from, as it now stands. */
  method StockOut(store: Store, productId: nat, quantity: int, location: Option<string>, remarks: Option<string>)
    returns (r: Result<Item>)
    requires store.Valid()
    requires quantity > 0
    requires location.Some? ==> ValidLocation(location.value)
    modifies store
    ensures store.Valid()
    ensures store.products == old(store.products)
    ensures store.nextProductId == old(store.nextProductId) && store.nextItemId == old(store.nextItemId)
    ensures r.Err? ==> store.items == old(store.items) && store.movements == old(store.movements)
    ensures productId !in old(store.products) ==> r == Err(ProductNotFound(UnknownProduct))
    ensures productId in old(store.products) && location.Some? ==>
      var found := FindRecord(old(store.items), productId, location.value);
      && (found.None? ==> r == Err(ProductNotFound(NoRecordAtLocation)))
      && (found.Some? && old(store.items)[found.value].quantity < quantity ==> r == Err(InsufficientStock))
      && (found.Some? && old(store.items)[found.value].quantity >= quantity ==>
            var k := found.value;
            && store.items == old(store.items)[k := old(store.items)[k].(quantity := old(store.items)[k].quantity - quantity)]
            && store.movements == old(store.movements) + [Movement(productId, old(store.items)[k].id, OUT, quantity, remarks)]
            && r == Ok(store.items[k]))
    ensures productId in old(store.products) && location.None? ==>
      var available := Available(old(store.items), productId);
      && (available == [] ==> r == Err(ProductNotFound(NoStockAtAnyLocation)))
      && (available != [] && SumQuantity(available) < quantity ==> r == Err(InsufficientStock))
      && (available != [] && SumQuantity(available) >= quantity ==>
            && store.items == Allocated(old(store.items), productId, quantity)
            && store.movements == old(store.movements) + AllocationMovements(old(store.items), productId, quantity, remarks)
            && r.Ok? && r.value in store.items && r.value.id == available[0].id)
  {
    if productId !in store.products {
      return Err(ProductNotFound(UnknownProduct));
    }
    var items := store.items;
    if location.Some? {
      var found := FindRecord(items, productId, location.value);
      if found.None? {
        return Err(ProductNotFound(NoRecordAtLocation));
      }
      var k := found.value;
      if items[k].quantity < quantity {
        return Err(InsufficientStock);
      }
      store.Apply(k, Movement(productId, items[k].id, OUT, quantity, remarks));
      r := Ok(store.items[k]);
    } else {
      var available := Available(items, productId);
      if available == [] {
        return Err(ProductNotFound(NoStockAtAnyLocation));
      }
      if SumQuantity(available) < quantity {
        return Err(InsufficientStock);
      }
      var walked, written, first := Deduct(items, productId, quantity, remarks);
      AllocationStartsAtFirstAvailable(items, productId, quantity, remarks);
      store.Allocate(walked, written, productId, quantity, remarks);
      r := Ok(walked[first]);
    }
  }

  /** The deduction loop of an untargeted stock-out, over the records in id
      order: skip other products' records and empty ones, take from each
      the smaller of its quantity and what remains (`TakenAt`, leaving the
      record as `LeftAt`), and stop once nothing remains. Returns the new
      table, the OUT movements in the order written, and the position of
      the first record taken from (the head of the list of updated
      records). The invariant pins the loop state to `WalkAfter`. */
  method Deduct(items: seq<Item>, productId: nat, quantity: nat, remarks: Option<string>)
    returns (walked: seq<Item>, written: seq<Movement>, first: nat)
    requires quantity > 0
    requires Available(items, productId) != []
    ensures walked == Allocated(items, productId, quantity)
    ensures written == AllocationMovements(items, productId, quantity, remarks)
    ensures first < |walked| && written != [] && walked[first].id == written[0].itemId
  {
    var remaining: nat := quantity;
    var updated: seq<nat> := [];
    walked, written := [], [];
    var i: nat := 0;
    while i < |items| && remaining > 0
      invariant i <= |items|
      invariant Walk(remaining, walked, written, updated) == WalkAfter(items, productId, quantity, remarks, i)
    {
      var d := TakenAt(items, i, productId, remaining);
      if d > 0 {
        written := written + [Movement(productId, items[i].id, OUT, d, remarks)];
        updated := updated + [i];
      }
      walked := walked + [LeftAt(items, i, productId, remaining)];
      remaining := remaining - d;
      i := i + 1;
    }
    WalkFinished(items, productId, quantity, remarks, i);
    walked := walked + items[i..];
    first := updated[0];
  }

  /** `get_inventory_overview`: the page `[offset : offset + limit]` of the
      per-product stock, after the optional name and SKU filters; by default
      the first 100 products, unfiltered. Every product on the page comes
      with the locations and total of all of its records, whichever rows the
      filters matched, and the page is a window of the unpaged listing. */
  function InventoryOverview(store: Store, offset: int := 0, limit: int := 100,
                             productName: Option<string> := None, sku: Option<string> := None)
    : (page: seq<InventoryQueryRead>)
    reads store
    ensures offset >= 0 && limit >= 0 ==>
      var rows := JoinRows(store.items, store.products);
      var all := Overview(rows, 0, |rows|, productName, sku);
      && page == all[Min(offset, |all|)..Min(offset + limit, |all|)]
      && |page| <= limit
      && DistinctProducts(page)
      && (forall j :: 0 <= j < |page| ==> EntryOk(FilterRows(rows, productName, sku), page[j], sku))
      && (forall j :: 0 <= j < |page| ==>
            CatalogNamed(store.products, page[j].productId, page[j].productName, page[j].sku))
      && (store.Valid() ==> forall j :: 0 <= j < |page| ==>
            && page[j].locations == LocationsOf(rows, page[j].productId)
            && page[j].totalQuantity == ProductStock(store.items, page[j].productId))
  {
    var rows := JoinRows(store.items, store.products);
    if offset >= 0 && limit >= 0 then
      OverviewEntries(rows, offset, limit, productName, sku);
      OverviewOfTable(store.items, store.products, offset, limit, productName, sku);
      Overview(rows, offset, limit, productName, sku)
    else
      Overview(rows, offset, limit, productName, sku)
  }

  /** With every record's product in the catalog, each entry of an overview
      page lists every record of its product and the product's whole stock. */
  lemma OverviewOfTable(items: seq<Item>, products: map<nat, Product>, offset: int, limit: int,
                        productName: Option<string>, sku: Option<string>)
    requires offset >= 0 && limit >= 0
    ensures var page := Overview(JoinRows(items, products), offset, limit, productName, sku);
      forall j :: 0 <= j < |page| ==> CatalogNamed(products, page[j].productId, page[j].productName, page[j].sku)
    ensures var rows := JoinRows(items, products);
      var page := Overview(rows, offset, limit, productName, sku);
      AllLinked(items, products) ==>
        forall j :: 0 <= j < |page| ==>
          && page[j].locations == LocationsOf(rows, page[j].productId)
          && page[j].totalQuantity == ProductStock(items, page[j].productId)
  {
    var rows := JoinRows(items, products);
    var page := Overview(rows, offset, limit, productName, sku);
    var matching := FilterRows(rows, productName, sku);
    OverviewEntries(rows, offset, limit, productName, sku);
    FilterRowsMembers(rows, productName, sku);
    forall j | 0 <= j < |page|
      ensures CatalogNamed(products, page[j].productId, page[j].productName, page[j].sku)
    {
      assert NamedAfterRow(matching, page[j]);
      var i :| 0 <= i < |matching| && matching[i].item.productId == page[j].productId
        && matching[i].product.name == page[j].productName && matching[i].product.sku == page[j].sku;
      assert matching[i] in rows;
      var k :| 0 <= k < |rows| && rows[k] == matching[i];
    }
    if AllLinked(items, products) {
      forall j | 0 <= j < |page|
        ensures page[j].locations == LocationsOf(rows, page[j].productId)
        ensures page[j].totalQuantity == ProductStock(items, page[j].productId)
      {
        EntryCoversProduct(rows, productName, sku, page[j]);
        JoinedStock(items, products, page[j].productId);
      }
    }
  }

  /** With every record's product in the catalog, the quantity the join
      shows for a product is the product's stock. */
  lemma {:induction false} JoinedStock(items: seq<Item>, products: map<nat, Product>, productId: nat)
    requires AllLinked(items, products)
    ensures QuantityOf(JoinRows(items, products), productId) == ProductStock(items, productId)
  {
    if items != [] {
      var n := |items| - 1;
      var rest := JoinRows(items[..n], products);
      var row := Row(items[n], products[items[n].productId]);
      assert AllLinked(items[..n], products) by {
        assert forall k :: 0 <= k < n ==> items[..n][k] == items[k];
      }
      JoinedStock(items[..n], products, productId);
      assert JoinRows(items, products) == rest + [row];
      SnocRow(rest, row);
      var before := LocationsOf(rest, productId);
      if items[n].productId == productId {
        var after := before + [Location(row)];
        assert LocationsOf(rest + [row], productId) == after;
        assert after[..|before|] == before;
        assert SumLocations(after) == SumLocations(before) + items[n].quantity;
      } else {
        assert LocationsOf(rest + [row], productId) == before;
      }
      ProductStockSnoc(items[..n], items[n], productId);
      assert items[..n] + [items[n]] == items;
    }
  }

  /** `get_low_stock_alerts`: one alert per product whose total quantity is
      strictly below its total safety stock. Over a consistent store, a
      product is alerted exactly when it has a record and its stock is below
      the safety stock of its records, and each alert shows that stock. */
  function LowStock(store: Store): (alerts: seq<LowStockAlert>)
    reads store
    ensures forall a :: a in alerts ==> AlertExact(a, JoinRows(store.items, store.products))
    ensures store.Valid() ==>
      var rows := JoinRows(store.items, store.products);
      && (forall p :: Alerted(alerts, p) <==>
            && (exists k :: 0 <= k < |store.items| && store.items[k].productId == p)
            && ProductStock(store.items, p) < SafetyOf(rows, p))
      && (forall a :: a in alerts ==> a.currentStock == ProductStock(store.items, a.productId))
    ensures DistinctAlerts(alerts)
    ensures forall a :: a in alerts ==> CatalogNamed(store.products, a.productId, a.productName, a.sku)
  {
    var rows := JoinRows(store.items, store.products);
    LowStockOfTable(store.items, store.products);
    LowStockNamed(store.items, store.products);
    LowStockAlerts(rows)
  }

  /** The low-stock alerts over the join, stated over the records. */
  lemma LowStockOfTable(items: seq<Item>, products: map<nat, Product>)
    ensures var rows := JoinRows(items, products);
      var alerts := LowStockAlerts(rows);
      && (forall a :: a in alerts ==> AlertExact(a, rows))
      && (AllLinked(items, products) ==>
            && (forall p :: Alerted(alerts, p) <==>
                  && (exists k :: 0 <= k < |items| && items[k].productId == p)
                  && ProductStock(items, p) < SafetyOf(rows, p))
            && (forall a :: a in alerts ==> a.currentStock == ProductStock(items, a.productId)))
  {
    var rows := JoinRows(items, products);
    var alerts := LowStockAlerts(rows);
    LowStockIff(rows, 0);
    if AllLinked(items, products) {
      JoinRowsExact(items, products);
      forall p
        ensures Alerted(alerts, p) <==>
                  && (exists k :: 0 <= k < |items| && items[k].productId == p)
                  && ProductStock(items, p) < SafetyOf(rows, p)
      {
        LowStockIff(rows, p);
        JoinedStock(items, products, p);
        if exists k :: 0 <= k < |items| && items[k].productId == p {
          var k :| 0 <= k < |items| && items[k].productId == p;
          assert rows[k].item.productId == p;
        }
      }
      forall a | a in alerts
        ensures a.currentStock == ProductStock(items, a.productId)
      {
        JoinedStock(items, products, a.productId);
      }
    }
  }

  /** One alert per product, each carrying the product's catalog name and
      SKU. */
  lemma LowStockNamed(items: seq<Item>, products: map<nat, Product>)
    ensures DistinctAlerts(LowStockAlerts(JoinRows(items, products)))
    ensures forall a :: a in LowStockAlerts(JoinRows(items, products)) ==>
      CatalogNamed(products, a.productId, a.productName, a.sku)
  {
    var rows := JoinRows(items, products);
    LowStockAlertsNamed(rows);
    forall a | a in LowStockAlerts(rows)
      ensures CatalogNamed(products, a.productId, a.productName, a.sku)
    {
      assert AlertNamedAfterRow(rows, a);
      var i :| 0 <= i < |rows| && rows[i].item.productId == a.productId
        && rows[i].product.name == a.productName && rows[i].product.sku == a.sku;
    }
  }
}
