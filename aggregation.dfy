/** The read-only aggregates over the join of stock records with their
    products: the paginated inventory overview and the low-stock alerts.
    Rows are visited in table (record id) order. */
module Aggregation {
  import opened Models
  import opened Text

  /** One row of `warehouse_item JOIN product`. */
  datatype Row = Row(item: Item, product: Product)

  datatype LocationQuantity = LocationQuantity(location: string, quantity: int)

  /** One product of the overview. */
  datatype InventoryQueryRead = InventoryQueryRead(productId: nat, productName: string, sku: string,
                                                   totalQuantity: int, locations: seq<LocationQuantity>)

  /** One product below its safety stock. */
  datatype LowStockAlert = LowStockAlert(productId: nat, productName: string, sku: string,
                                         currentStock: int, safetyStock: int, locationDetails: seq<LocationQuantity>)

  /** The inner join: each record whose product exists, with that product. */
  function JoinRows(items: seq<Item>, products: map<nat, Product>): (rows: seq<Row>)
    ensures forall i :: 0 <= i < |rows| ==>
      rows[i].item in items && rows[i].item.productId in products && rows[i].product == products[rows[i].item.productId]
  {
    if items == [] then []
    else
      var n := |items| - 1;
      var rest := JoinRows(items[..n], products);
      assert forall x :: x in items[..n] ==> x in items;
      if items[n].productId in products then rest + [Row(items[n], products[items[n].productId])] else rest
  }

  /** `productId` is in the catalog under this name and SKU. */
  predicate CatalogNamed(products: map<nat, Product>, productId: nat, name: string, sku: string)
  {
    productId in products && products[productId].name == name && products[productId].sku == sku
  }

  /** Every record's product is in the catalog. */
  predicate AllLinked(items: seq<Item>, products: map<nat, Product>)
  {
    forall k :: 0 <= k < |items| ==> items[k].productId in products
  }

  /** When every record's product exists, the join pairs each record, in
      table order, with its product: no record is dropped. */
  lemma {:induction false} JoinRowsExact(items: seq<Item>, products: map<nat, Product>)
    requires AllLinked(items, products)
    ensures |JoinRows(items, products)| == |items|
    ensures forall k :: 0 <= k < |items| ==> JoinRows(items, products)[k] == Row(items[k], products[items[k].productId])
  {
    if items != [] {
      var n := |items| - 1;
      var rest := JoinRows(items[..n], products);
      assert AllLinked(items[..n], products) by {
        assert forall k :: 0 <= k < n ==> items[..n][k] == items[k];
      }
      JoinRowsExact(items[..n], products);
      assert JoinRows(items, products) == rest + [Row(items[n], products[items[n].productId])];
      forall k | 0 <= k < n
        ensures JoinRows(items, products)[k] == Row(items[k], products[items[k].productId])
      {
        assert rest[k] == Row(items[..n][k], products[items[..n][k].productId]);
      }
    }
  }

  /** Every record whose product exists appears in the join with that
      product. */
  lemma {:induction false} JoinRowsComplete(items: seq<Item>, products: map<nat, Product>)
    ensures forall x :: x in items && x.productId in products ==> Row(x, products[x.productId]) in JoinRows(items, products)
  {
    if items != [] {
      var n := |items| - 1;
      JoinRowsComplete(items[..n], products);
      assert items == items[..n] + [items[n]];
    }
  }

  // ---------------------------------------------------------------------
  // Per-product views of the rows

  predicate Mentions(rows: seq<Row>, productId: nat)
  {
    exists i :: 0 <= i < |rows| && rows[i].item.productId == productId
  }

  function Location(row: Row): LocationQuantity
  {
    LocationQuantity(row.item.location, row.item.quantity)
  }

  /** The (location, quantity) pairs of `productId`'s rows, in row order. */
  function LocationsOf(rows: seq<Row>, productId: nat): seq<LocationQuantity>
  {
    if rows == [] then []
    else
      var n := |rows| - 1;
      LocationsOf(rows[..n], productId) + (if rows[n].item.productId == productId then [Location(rows[n])] else [])
  }

  function SumLocations(locations: seq<LocationQuantity>): int
  {
    if locations == [] then 0
    else SumLocations(locations[..|locations| - 1]) + locations[|locations| - 1].quantity
  }

  /** Sum of the safety stocks of `productId`'s rows. */
  function SafetyOf(rows: seq<Row>, productId: nat): int
  {
    if rows == [] then 0
    else
      var n := |rows| - 1;
      SafetyOf(rows[..n], productId) + (if rows[n].item.productId == productId then rows[n].item.safetyStock else 0)
  }

  lemma {:induction false} LocationsOfUnmentioned(rows: seq<Row>, productId: nat)
    requires !Mentions(rows, productId)
    ensures LocationsOf(rows, productId) == []
  {
    if rows != [] {
      var n := |rows| - 1;
      assert forall i :: 0 <= i < n ==> rows[..n][i] == rows[i];
      LocationsOfUnmentioned(rows[..n], productId);
    }
  }

  // ---------------------------------------------------------------------
  // Grouping by product

  predicate Listed(groups: seq<InventoryQueryRead>, productId: nat)
  {
    exists j :: 0 <= j < |groups| && groups[j].productId == productId
  }

  predicate DistinctProducts(groups: seq<InventoryQueryRead>)
  {
    forall i, j :: 0 <= i < j < |groups| ==> groups[i].productId != groups[j].productId
  }

  /** The group's name and SKU are those of one of its rows. */
  ghost predicate NamedAfterRow(rows: seq<Row>, g: InventoryQueryRead)
  {
    exists i :: 0 <= i < |rows| && rows[i].item.productId == g.productId
      && rows[i].product.name == g.productName && rows[i].product.sku == g.sku
  }

  /** `groups` is the grouping of `rows`: one group per product met in the
      rows, each listing every location of that product and their total. */
  ghost predicate GroupedOk(rows: seq<Row>, groups: seq<InventoryQueryRead>)
  {
    && DistinctProducts(groups)
    && (forall p :: Listed(groups, p) <==> Mentions(rows, p))
    && (forall j :: 0 <= j < |groups| ==>
          && groups[j].locations == LocationsOf(rows, groups[j].productId)
          && groups[j].totalQuantity == SumLocations(groups[j].locations)
          && NamedAfterRow(rows, groups[j]))
  }

  function IndexOfProduct(groups: seq<InventoryQueryRead>, productId: nat): (r: Option<nat>)
    ensures r.Some? ==> r.value < |groups| && groups[r.value].productId == productId
    ensures r.None? <==> !Listed(groups, productId)
  {
    if groups == [] then None
    else if groups[0].productId == productId then Some(0)
    else
      match IndexOfProduct(groups[1..], productId)
      case None =>
        assert forall j :: 0 < j < |groups| ==> groups[j] == groups[1..][j - 1];
        None
      case Some(k) => Some(k + 1)
  }

  /** One step of the grouping loop: start the product's group on its first
      row, otherwise add the row's quantity and location to it. */
  function AddRow(groups: seq<InventoryQueryRead>, row: Row): seq<InventoryQueryRead>
  {
    var loc := Location(row);
    match IndexOfProduct(groups, row.item.productId)
    case Some(j) =>
      groups[j := groups[j].(totalQuantity := groups[j].totalQuantity + row.item.quantity,
                             locations := groups[j].locations + [loc])]
    case None =>
      groups + [InventoryQueryRead(row.item.productId, row.product.name, row.product.sku, 0 + row.item.quantity, [loc])]
  }

  function Group(rows: seq<Row>): (r: seq<InventoryQueryRead>)
    ensures |r| <= |rows|
  {
    if rows == [] then [] else AddRow(Group(rows[..|rows| - 1]), rows[|rows| - 1])
  }

  /** What appending one row does to the per-product views. */
  lemma SnocRow(rows: seq<Row>, row: Row)
    ensures forall q :: Mentions(rows + [row], q) <==> Mentions(rows, q) || q == row.item.productId
    ensures forall q :: LocationsOf(rows + [row], q)
                     == LocationsOf(rows, q) + (if row.item.productId == q then [Location(row)] else [])
    ensures forall g :: NamedAfterRow(rows, g) ==> NamedAfterRow(rows + [row], g)
  {
    var rows' := rows + [row];
    assert rows'[..|rows|] == rows;
    assert rows'[|rows|] == row;
    assert forall i :: 0 <= i < |rows| ==> rows'[i] == rows[i];
  }

  lemma AddRowToGroup(rows: seq<Row>, groups: seq<InventoryQueryRead>, row: Row, j: nat)
    requires GroupedOk(rows, groups)
    requires IndexOfProduct(groups, row.item.productId) == Some(j)
    ensures GroupedOk(rows + [row], AddRow(groups, row))
  {
    var rows' := rows + [row];
    var groups' := AddRow(groups, row);
    SnocRow(rows, row);
    assert forall i :: 0 <= i < |groups| ==> groups'[i].productId == groups[i].productId;
    assert forall q :: Listed(groups', q) <==> Listed(groups, q);
    assert Mentions(rows, row.item.productId);
    forall i | 0 <= i < |groups'|
      ensures groups'[i].locations == LocationsOf(rows', groups'[i].productId)
      ensures groups'[i].totalQuantity == SumLocations(groups'[i].locations)
      ensures NamedAfterRow(rows', groups'[i])
    {
      assert NamedAfterRow(rows, groups[i]);
      if i == j {
        assert groups'[i].locations[..|groups'[i].locations| - 1] == groups[i].locations;
      }
    }
  }

  lemma AddRowNewGroup(rows: seq<Row>, groups: seq<InventoryQueryRead>, row: Row)
    requires GroupedOk(rows, groups)
    requires IndexOfProduct(groups, row.item.productId) == None
    ensures GroupedOk(rows + [row], AddRow(groups, row))
  {
    var rows' := rows + [row];
    var groups' := AddRow(groups, row);
    var p := row.item.productId;
    SnocRow(rows, row);
    LocationsOfUnmentioned(rows, p);
    assert groups'[|groups|].productId == p;
    assert forall i :: 0 <= i < |groups| ==> groups'[i] == groups[i];
    assert forall q :: Listed(groups', q) <==> Listed(groups, q) || q == p;
    assert SumLocations([Location(row)]) == row.item.quantity by {
      assert [Location(row)][..0] == [];
    }
    forall i | 0 <= i < |groups'|
      ensures groups'[i].locations == LocationsOf(rows', groups'[i].productId)
      ensures groups'[i].totalQuantity == SumLocations(groups'[i].locations)
      ensures NamedAfterRow(rows', groups'[i])
    {
      if i < |groups| {
        assert NamedAfterRow(rows, groups[i]);
        assert groups[i].productId != p;
      } else {
        assert rows'[|rows|] == row;
      }
    }
  }

  lemma AddRowKeepsGrouping(rows: seq<Row>, groups: seq<InventoryQueryRead>, row: Row)
    requires GroupedOk(rows, groups)
    ensures GroupedOk(rows + [row], AddRow(groups, row))
  {
    match IndexOfProduct(groups, row.item.productId)
    case Some(j) => AddRowToGroup(rows, groups, row, j);
    case None => AddRowNewGroup(rows, groups, row);
  }

  /** The grouping lists each product met in the rows exactly once, with
      all of that product's locations in row order and their sum as total. */
  lemma {:induction false} GroupIsGrouping(rows: seq<Row>)
    ensures GroupedOk(rows, Group(rows))
  {
    if rows == [] {
      assert forall p :: !Mentions(rows, p);
    } else {
      var n := |rows| - 1;
      GroupIsGrouping(rows[..n]);
      AddRowKeepsGrouping(rows[..n], Group(rows[..n]), rows[n]);
      assert rows[..n] + [rows[n]] == rows;
    }
  }

  // ---------------------------------------------------------------------
  // Inventory overview

  /** Python truthiness of an optional filter: absent and empty both mean
      "no filter". */
  predicate Given(filter: Option<string>)
  {
    filter.Some? && filter.value != ""
  }

  predicate RowMatches(row: Row, productName: Option<string>, sku: Option<string>)
  {
    && (Given(productName) ==> ContainsIgnoringCase(row.product.name, productName.value))
    && (Given(sku) ==> row.product.sku == Upper(sku.value))
  }

  function FilterRows(rows: seq<Row>, productName: Option<string>, sku: Option<string>): (r: seq<Row>)
    ensures |r| <= |rows|
    ensures forall i :: 0 <= i < |r| ==> RowMatches(r[i], productName, sku)
  {
    if rows == [] then []
    else
      var n := |rows| - 1;
      var rest := FilterRows(rows[..n], productName, sku);
      if RowMatches(rows[n], productName, sku) then rest + [rows[n]] else rest
  }

  /** The filter keeps exactly the rows that match. */
  lemma {:induction false} FilterRowsMembers(rows: seq<Row>, productName: Option<string>, sku: Option<string>)
    ensures forall x :: x in FilterRows(rows, productName, sku) <==> x in rows && RowMatches(x, productName, sku)
  {
    if rows != [] {
      var n := |rows| - 1;
      FilterRowsMembers(rows[..n], productName, sku);
      assert rows == rows[..n] + [rows[n]];
    }
  }

  /** Some row of `productId` matches the filters. */
  predicate HasMatch(rows: seq<Row>, productId: nat, productName: Option<string>, sku: Option<string>)
  {
    exists i :: 0 <= i < |rows| && rows[i].item.productId == productId && RowMatches(rows[i], productName, sku)
  }

  /** A Python slice index: negative counts from the end, then clamped. */
  function SliceIndex(i: int, n: nat): (r: nat)
    ensures r <= n
  {
    if i < 0 then (if i + n < 0 then 0 else i + n) else if i > n then n else i
  }

  /** `s[start:stop]` with Python's slicing rules; with non-negative
      bounds it is the stretch between them, cut at the end of `s`. */
  function PySlice<T>(s: seq<T>, start: int, stop: int): (r: seq<T>)
    ensures 0 <= start <= stop ==> r == s[Min(start, |s|)..Min(stop, |s|)]
    ensures 0 <= stop <= start ==> r == []
  {
    var a, b := SliceIndex(start, |s|), SliceIndex(stop, |s|);
    if a < b then s[a..b] else []
  }

  /** The overview: filter the joined rows, group them by product, then
      take the page `[offset : offset + limit]` of the groups. */
  function Overview(rows: seq<Row>, offset: int, limit: int,
                    productName: Option<string>, sku: Option<string>): (page: seq<InventoryQueryRead>)
    ensures offset >= 0 && limit >= 0 ==> |page| <= limit
  {
    PySlice(Group(FilterRows(rows, productName, sku)), offset, offset + limit)
  }

  /** What an overview entry `g` over the matching rows `matching` must
      hold: exactly the product's locations and their sum, a product with a
      matching row, whose name and SKU it carries, and under a SKU filter the
      upper-cased filter as SKU. */
  ghost predicate EntryOk(matching: seq<Row>, g: InventoryQueryRead, sku: Option<string>)
  {
    && g.locations == LocationsOf(matching, g.productId)
    && g.totalQuantity == SumLocations(g.locations)
    && Mentions(matching, g.productId)
    && NamedAfterRow(matching, g)
    && (Given(sku) ==> g.sku == Upper(sku.value))
  }

  /** Every group of the filtered rows is a correct overview entry, and no
      product has two groups. */
  lemma GroupEntries(rows: seq<Row>, productName: Option<string>, sku: Option<string>)
    ensures var matching := FilterRows(rows, productName, sku);
      var groups := Group(matching);
      && DistinctProducts(groups)
      && forall j :: 0 <= j < |groups| ==> EntryOk(matching, groups[j], sku)
  {
    var matching := FilterRows(rows, productName, sku);
    var groups := Group(matching);
    GroupIsGrouping(matching);
    forall j | 0 <= j < |groups|
      ensures EntryOk(matching, groups[j], sku)
    {
      assert NamedAfterRow(matching, groups[j]);
      var i :| 0 <= i < |matching| && matching[i].item.productId == groups[j].productId
        && matching[i].product.name == groups[j].productName && matching[i].product.sku == groups[j].sku;
      assert RowMatches(matching[i], productName, sku);
    }
  }

  /** Every product on a page of the overview appears once, with exactly
      the locations of its matching rows and their sum as total; a page
      holds at most `limit` products; and under a SKU filter every product
      listed has the upper-cased filter as its SKU. */
  lemma OverviewEntries(rows: seq<Row>, offset: int, limit: int, productName: Option<string>, sku: Option<string>)
    requires offset >= 0 && limit >= 0
    ensures var page := Overview(rows, offset, limit, productName, sku);
      var all := Overview(rows, 0, |rows|, productName, sku);
      && page == all[Min(offset, |all|)..Min(offset + limit, |all|)]
      && |page| <= limit
      && DistinctProducts(page)
      && forall j :: 0 <= j < |page| ==> EntryOk(FilterRows(rows, productName, sku), page[j], sku)
  {
    var matching := FilterRows(rows, productName, sku);
    var groups := Group(matching);
    GroupEntries(rows, productName, sku);
    var a, b := Min(offset, |groups|), Min(offset + limit, |groups|);
    assert Overview(rows, offset, limit, productName, sku) == groups[a..b];
    assert Overview(rows, 0, |rows|, productName, sku) == groups;
    SliceKeepsEntries(groups, a, b, matching, sku);
  }

  /** A stretch of correct, distinct overview entries is one too. */
  lemma SliceKeepsEntries(groups: seq<InventoryQueryRead>, a: nat, b: nat, matching: seq<Row>, sku: Option<string>)
    requires a <= b <= |groups|
    requires DistinctProducts(groups)
    requires forall j :: 0 <= j < |groups| ==> EntryOk(matching, groups[j], sku)
    ensures DistinctProducts(groups[a..b])
    ensures forall j :: 0 <= j < b - a ==> EntryOk(matching, groups[a..b][j], sku)
  {
    forall j | 0 <= j < b - a
      ensures groups[a..b][j] == groups[a + j]
    {
    }
  }

  /** Without a page cut, the overview lists exactly the products that have
      a row matching the filters. */
  lemma OverviewCoversMatches(rows: seq<Row>, productName: Option<string>, sku: Option<string>, productId: nat)
    ensures var all := Overview(rows, 0, |rows|, productName, sku);
      Listed(all, productId) <==> HasMatch(rows, productId, productName, sku)
  {
    var matching := FilterRows(rows, productName, sku);
    GroupIsGrouping(matching);
    FilterRowsMembers(rows, productName, sku);
    assert Overview(rows, 0, |rows|, productName, sku) == Group(matching);
    if Mentions(matching, productId) {
      var i :| 0 <= i < |matching| && matching[i].item.productId == productId;
      assert matching[i] in rows;
      var k :| 0 <= k < |rows| && rows[k] == matching[i];
    }
    if HasMatch(rows, productId, productName, sku) {
      var k :| 0 <= k < |rows| && rows[k].item.productId == productId && RowMatches(rows[k], productName, sku);
      assert rows[k] in matching;
      var i :| 0 <= i < |matching| && matching[i] == rows[k];
    }
  }

  /** Rows of the same product carry the same product, as in a join. */
  predicate ProductsAgree(rows: seq<Row>)
  {
    forall i, j :: 0 <= i < |rows| && 0 <= j < |rows| && rows[i].item.productId == rows[j].item.productId ==>
      rows[i].product == rows[j].product
  }

  /** When all of a product's rows match, the filter keeps all of its
      locations. */
  lemma {:induction false} FilterKeepsLocations(rows: seq<Row>, productName: Option<string>, sku: Option<string>, productId: nat)
    requires forall i :: 0 <= i < |rows| && rows[i].item.productId == productId ==> RowMatches(rows[i], productName, sku)
    ensures LocationsOf(FilterRows(rows, productName, sku), productId) == LocationsOf(rows, productId)
  {
    if rows != [] {
      var n := |rows| - 1;
      assert forall i :: 0 <= i < n ==> rows[..n][i] == rows[i];
      FilterKeepsLocations(rows[..n], productName, sku, productId);
      if RowMatches(rows[n], productName, sku) {
        SnocRow(FilterRows(rows[..n], productName, sku), rows[n]);
      }
    }
  }

  /** The filters look only at the product, so over rows that agree on their
      products an overview entry holds every location of its product and
      the product's whole quantity, not only those of some rows. */
  lemma EntryCoversProduct(rows: seq<Row>, productName: Option<string>, sku: Option<string>, g: InventoryQueryRead)
    requires ProductsAgree(rows)
    requires EntryOk(FilterRows(rows, productName, sku), g, sku)
    ensures g.locations == LocationsOf(rows, g.productId)
    ensures g.totalQuantity == QuantityOf(rows, g.productId)
  {
    var matching := FilterRows(rows, productName, sku);
    FilterRowsMembers(rows, productName, sku);
    var i :| 0 <= i < |matching| && matching[i].item.productId == g.productId;
    assert matching[i] in rows;
    var k :| 0 <= k < |rows| && rows[k] == matching[i];
    FilterKeepsLocations(rows, productName, sku, g.productId);
  }

  // ---------------------------------------------------------------------
  // Low-stock alerts

  /** For each group, in order, an alert when the product's total quantity
      is strictly below its total safety stock, carrying every location of
      the product. */
  function AlertsFor(groups: seq<InventoryQueryRead>, rows: seq<Row>): (r: seq<LowStockAlert>)
    ensures |r| <= |groups|
  {
    if groups == [] then [] else GroupAlert(groups[0], rows) + AlertsFor(groups[1..], rows)
  }

  /** `GROUP BY product HAVING SUM(quantity) < SUM(safety_stock)` over the
      join, then the location breakdown of each product found. */
  function LowStockAlerts(rows: seq<Row>): (r: seq<LowStockAlert>)
    ensures |r| <= |rows|
  {
    AlertsFor(Group(rows), rows)
  }

  predicate Alerted(alerts: seq<LowStockAlert>, productId: nat)
  {
    exists j :: 0 <= j < |alerts| && alerts[j].productId == productId
  }

  /** Sum of the quantities of `productId`'s rows. */
  function QuantityOf(rows: seq<Row>, productId: nat): int
  {
    SumLocations(LocationsOf(rows, productId))
  }

  /** The alert a group raises, if any. */
  function GroupAlert(g: InventoryQueryRead, rows: seq<Row>): (r: seq<LowStockAlert>)
    ensures |r| <= 1
    ensures r != [] <==> g.totalQuantity < SafetyOf(rows, g.productId)
    ensures r != [] ==>
      && r[0].productId == g.productId && r[0].productName == g.productName && r[0].sku == g.sku
      && r[0].currentStock == g.totalQuantity
  {
    var safety := SafetyOf(rows, g.productId);
    if g.totalQuantity < safety
    then [LowStockAlert(g.productId, g.productName, g.sku, g.totalQuantity, safety, LocationsOf(rows, g.productId))]
    else []
  }

  /** Groups whose locations and totals are those of their product. */
  predicate Summarised(groups: seq<InventoryQueryRead>, rows: seq<Row>)
  {
    forall j :: 0 <= j < |groups| ==>
      groups[j].locations == LocationsOf(rows, groups[j].productId) && groups[j].totalQuantity == SumLocations(groups[j].locations)
  }

  /** Every listed product whose stock is below its safety stock is alerted. */
  lemma {:induction false} AlertsForComplete(groups: seq<InventoryQueryRead>, rows: seq<Row>, p: nat)
    requires Summarised(groups, rows)
    requires Listed(groups, p) && QuantityOf(rows, p) < SafetyOf(rows, p)
    ensures Alerted(AlertsFor(groups, rows), p)
  {
    var rest := groups[1..];
    var head := GroupAlert(groups[0], rows);
    var tail := AlertsFor(rest, rows);
    var alerts := AlertsFor(groups, rows);
    assert alerts == head + tail;
    var j :| 0 <= j < |groups| && groups[j].productId == p;
    if j == 0 {
      assert alerts[0].productId == p;
    } else {
      assert forall k :: 0 <= k < |rest| ==> rest[k] == groups[k + 1];
      assert rest[j - 1].productId == p;
      AlertsForComplete(rest, rows, p);
      var i :| 0 <= i < |tail| && tail[i].productId == p;
      assert alerts[|head| + i] == tail[i];
    }
  }

  /** Only listed products whose stock is below their safety stock are
      alerted. */
  lemma {:induction false} AlertsForSound(groups: seq<InventoryQueryRead>, rows: seq<Row>, p: nat)
    requires Summarised(groups, rows)
    requires Alerted(AlertsFor(groups, rows), p)
    ensures Listed(groups, p) && QuantityOf(rows, p) < SafetyOf(rows, p)
  {
    var rest := groups[1..];
    var head := GroupAlert(groups[0], rows);
    var tail := AlertsFor(rest, rows);
    var alerts := AlertsFor(groups, rows);
    assert alerts == head + tail;
    var j :| 0 <= j < |alerts| && alerts[j].productId == p;
    if j < |head| {
      assert alerts[j] == head[0];
      assert groups[0].productId == p;
    } else {
      assert tail[j - |head|] == alerts[j];
      assert forall k :: 0 <= k < |rest| ==> rest[k] == groups[k + 1];
      AlertsForSound(rest, rows, p);
      var i :| 0 <= i < |rest| && rest[i].productId == p;
      assert groups[i + 1].productId == p;
    }
  }

  /** A product is alerted exactly when it is listed and its stock is
      strictly below its safety stock. */
  lemma AlertsForIff(groups: seq<InventoryQueryRead>, rows: seq<Row>, p: nat)
    requires Summarised(groups, rows)
    ensures Alerted(AlertsFor(groups, rows), p) <==> Listed(groups, p) && QuantityOf(rows, p) < SafetyOf(rows, p)
  {
    if Listed(groups, p) && QuantityOf(rows, p) < SafetyOf(rows, p) {
      AlertsForComplete(groups, rows, p);
    }
    if Alerted(AlertsFor(groups, rows), p) {
      AlertsForSound(groups, rows, p);
    }
  }

  /** An alert carries its product's totals over all of its records and
      every one of their locations. */
  predicate AlertExact(alert: LowStockAlert, rows: seq<Row>)
  {
    && alert.currentStock == QuantityOf(rows, alert.productId)
    && alert.safetyStock == SafetyOf(rows, alert.productId)
    && alert.locationDetails == LocationsOf(rows, alert.productId)
  }

  lemma {:induction false} AlertsForEntries(groups: seq<InventoryQueryRead>, rows: seq<Row>)
    requires forall j :: 0 <= j < |groups| ==>
      groups[j].locations == LocationsOf(rows, groups[j].productId) && groups[j].totalQuantity == SumLocations(groups[j].locations)
    ensures forall a :: a in AlertsFor(groups, rows) ==> AlertExact(a, rows)
  {
    if groups != [] {
      var rest := groups[1..];
      assert forall j :: 0 <= j < |rest| ==> rest[j] == groups[j + 1];
      AlertsForEntries(rest, rows);
      assert groups[0].totalQuantity == QuantityOf(rows, groups[0].productId);
      assert AlertsFor(groups, rows) == GroupAlert(groups[0], rows) + AlertsFor(rest, rows);
    }
  }

  /** Alert `a` is the one group `g` raises: same product, name and SKU. */
  predicate RaisedBy(g: InventoryQueryRead, a: LowStockAlert)
  {
    a.productId == g.productId && a.productName == g.productName && a.sku == g.sku
  }

  /** Some group of `groups` raises alert `a`. */
  predicate RaisedBySome(groups: seq<InventoryQueryRead>, a: LowStockAlert)
  {
    exists j :: 0 <= j < |groups| && RaisedBy(groups[j], a)
  }

  /** No product has two alerts. */
  predicate DistinctAlerts(alerts: seq<LowStockAlert>)
  {
    forall i, j :: 0 <= i < j < |alerts| ==> alerts[i].productId != alerts[j].productId
  }

  /** The alert's name and SKU are those of one of its product's rows. */
  ghost predicate AlertNamedAfterRow(rows: seq<Row>, a: LowStockAlert)
  {
    exists i :: 0 <= i < |rows| && rows[i].item.productId == a.productId
      && rows[i].product.name == a.productName && rows[i].product.sku == a.sku
  }

  /** Every alert is raised by one of the groups. */
  lemma {:induction false} AlertsForFromGroups(groups: seq<InventoryQueryRead>, rows: seq<Row>)
    ensures forall i :: 0 <= i < |AlertsFor(groups, rows)| ==> RaisedBySome(groups, AlertsFor(groups, rows)[i])
  {
    if groups != [] {
      var rest := groups[1..];
      var head := GroupAlert(groups[0], rows);
      var tail := AlertsFor(rest, rows);
      AlertsForFromGroups(rest, rows);
      assert AlertsFor(groups, rows) == head + tail;
      forall i | 0 <= i < |head + tail|
        ensures RaisedBySome(groups, (head + tail)[i])
      {
        if i < |head| {
          assert RaisedBy(groups[0], (head + tail)[i]);
        } else {
          var k := i - |head|;
          assert 0 <= k < |tail|;
          assert RaisedBySome(rest, tail[k]);
          var j :| 0 <= j < |rest| && RaisedBy(rest[j], tail[i - |head|]);
          assert groups[j + 1] == rest[j];
        }
      }
    }
  }

  /** Groups of distinct products raise alerts of distinct products. */
  lemma {:induction false} AlertsForDistinct(groups: seq<InventoryQueryRead>, rows: seq<Row>)
    requires DistinctProducts(groups)
    ensures DistinctAlerts(AlertsFor(groups, rows))
  {
    if groups != [] {
      var rest := groups[1..];
      var head := GroupAlert(groups[0], rows);
      var tail := AlertsFor(rest, rows);
      var alerts := AlertsFor(groups, rows);
      assert forall k :: 0 <= k < |rest| ==> rest[k] == groups[k + 1];
      AlertsForDistinct(rest, rows);
      AlertsForFromGroups(rest, rows);
      assert alerts == head + tail;
      forall i, j | 0 <= i < j < |alerts|
        ensures alerts[i].productId != alerts[j].productId
      {
        assert alerts[j] == tail[j - |head|];
        if i < |head| {
          assert RaisedBySome(rest, tail[j - |head|]);
          var k :| 0 <= k < |rest| && RaisedBy(rest[k], tail[j - |head|]);
          assert rest[k] == groups[k + 1];
        } else {
          assert alerts[i] == tail[i - |head|];
        }
      }
    }
  }

  /** One alert per product, each named after one of its product's rows. */
  lemma LowStockAlertsNamed(rows: seq<Row>)
    ensures DistinctAlerts(LowStockAlerts(rows))
    ensures forall a :: a in LowStockAlerts(rows) ==> AlertNamedAfterRow(rows, a)
  {
    var groups := Group(rows);
    var alerts := LowStockAlerts(rows);
    GroupIsGrouping(rows);
    AlertsForDistinct(groups, rows);
    AlertsForFromGroups(groups, rows);
    forall a | a in alerts
      ensures AlertNamedAfterRow(rows, a)
    {
      var i :| 0 <= i < |alerts| && alerts[i] == a;
      assert RaisedBySome(groups, alerts[i]);
      var j :| 0 <= j < |groups| && RaisedBy(groups[j], a);
      assert NamedAfterRow(rows, groups[j]);
    }
  }

  /** A product is alerted iff it has at least one record and its total
      quantity is strictly below its total safety stock (equality is not
      flagged); each alert carries the product's totals and every one of its
      locations, whatever their own levels. */
  lemma LowStockIff(rows: seq<Row>, productId: nat)
    ensures var alerts := LowStockAlerts(rows);
      && (Alerted(alerts, productId) <==> Mentions(rows, productId) && QuantityOf(rows, productId) < SafetyOf(rows, productId))
      && (forall a :: a in alerts ==> AlertExact(a, rows))
  {
    GroupIsGrouping(rows);
    AlertsForIff(Group(rows), rows, productId);
    AlertsForEntries(Group(rows), rows);
  }
}
