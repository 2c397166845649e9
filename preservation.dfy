/** Each way the stored tables change keeps the ledger invariants, and the
    per-record conservation invariant adds up to conservation per product. */
module Preservation {
  import opened Models
  import opened Text
  import opened Ledger

  /** Changing one record's quantity by a movement's signed amount, and
      logging that movement, keeps the ledger consistent as long as the
      quantity stays non-negative. Stock-in to an existing record and a
      targeted stock-out are both of this form. */
  lemma AdjustKeepsLedger(products: map<nat, Product>, items: seq<Item>, movements: seq<Movement>,
                          nextProductId: nat, nextItemId: nat, k: nat, m: Movement)
    requires LedgerOk(products, items, movements, nextProductId, nextItemId)
    requires k < |items| && m.itemId == items[k].id && m.productId == items[k].productId
    requires m.quantity > 0
    requires items[k].quantity + Signed(m) >= 0
    ensures LedgerOk(products, items[k := items[k].(quantity := items[k].quantity + Signed(m))],
                     movements + [m], nextProductId, nextItemId)
  {
    var r := items[k := items[k].(quantity := items[k].quantity + Signed(m))];
    var all := movements + [m];
    assert SameKeys(items, r);
    SameKeysKeepLinks(items, r, movements);
    assert HasRecord(r, m.itemId, m.productId) by {
      assert r[k].id == m.itemId && r[k].productId == m.productId;
    }
    assert LogOk(r, all) by {
      forall j | 0 <= j < |all|
        ensures all[j].quantity > 0 && HasRecord(r, all[j].itemId, all[j].productId)
      {
        if j < |movements| {
          assert all[j] == movements[j];
        }
      }
    }
    assert all[..|movements|] == movements;
    forall k' | 0 <= k' < |r|
      ensures Net(all, r[k'].id) == r[k'].quantity
    {
      assert Net(all, r[k'].id) == Net(movements, r[k'].id) + (if m.itemId == r[k'].id then Signed(m) else 0);
    }
  }

  /** Appending a new record of an existing product under the next free
      id, and logging its IN movement, keeps the ledger consistent: no
      earlier movement mentions the new id. */
  lemma AddRecordKeepsLedger(products: map<nat, Product>, items: seq<Item>, movements: seq<Movement>,
                             nextProductId: nat, nextItemId: nat,
                             productId: nat, location: string, quantity: int, remarks: Option<string>)
    requires LedgerOk(products, items, movements, nextProductId, nextItemId)
    requires productId in products && quantity > 0 && ValidLocation(location)
    ensures LedgerOk(products, items + [Item(nextItemId, productId, location, quantity, DEFAULT_SAFETY_STOCK)],
                     movements + [Movement(productId, nextItemId, IN, quantity, remarks)],
                     nextProductId, nextItemId + 1)
  {
    var added := Item(nextItemId, productId, location, quantity, DEFAULT_SAFETY_STOCK);
    var m := Movement(productId, nextItemId, IN, quantity, remarks);
    var r := items + [added];
    var all := movements + [m];
    forall j | 0 <= j < |movements|
      ensures movements[j].itemId != nextItemId
      ensures HasRecord(r, movements[j].itemId, movements[j].productId)
    {
      var k :| 0 <= k < |items| && items[k].id == movements[j].itemId && items[k].productId == movements[j].productId;
      assert r[k] == items[k];
    }
    NetUnlinked(movements, nextItemId);
    assert HasRecord(r, m.itemId, m.productId) by {
      assert r[|items|] == added;
    }
    assert LogOk(r, all) by {
      forall j | 0 <= j < |all|
        ensures all[j].quantity > 0 && HasRecord(r, all[j].itemId, all[j].productId)
      {
        if j < |movements| {
          assert all[j] == movements[j];
        }
      }
    }
    assert all[..|movements|] == movements;
    forall k | 0 <= k < |r|
      ensures Net(all, r[k].id) == r[k].quantity
    {
      assert Net(all, r[k].id) == Net(movements, r[k].id) + (if nextItemId == r[k].id then quantity else 0);
      if k < |items| {
        assert r[k] == items[k];
      }
    }
  }

  /** A PATCH that sets a record's location and safety stock, leaving its
      quantity alone, keeps the ledger consistent. */
  lemma PatchRecordKeepsLedger(products: map<nat, Product>, items: seq<Item>, movements: seq<Movement>,
                               nextProductId: nat, nextItemId: nat, k: nat, location: string, safetyStock: int)
    requires LedgerOk(products, items, movements, nextProductId, nextItemId)
    requires k < |items| && ValidLocation(location) && safetyStock >= 0
    ensures LedgerOk(products, items[k := items[k].(location := location, safetyStock := safetyStock)],
                     movements, nextProductId, nextItemId)
  {
    var r := items[k := items[k].(location := location, safetyStock := safetyStock)];
    assert SameKeys(items, r);
    SameKeysKeepLinks(items, r, movements);
  }

  /** Deleting the record at position `k` keeps the other records, in id
      order, with their constraints. */
  lemma RemoveRecordKeepsRecords(products: map<nat, Product>, items: seq<Item>, nextItemId: nat, k: nat)
    requires RecordsOk(items, products, nextItemId)
    requires k < |items|
    ensures RecordsOk(items[..k] + items[k + 1..], products, nextItemId)
  {
    var r := items[..k] + items[k + 1..];
    assert forall i :: 0 <= i < |r| ==> r[i] == items[if i < k then i else i + 1];
    assert IdsIncreasing(r) by {
      forall i, j | 0 <= i < j < |r| ensures r[i].id < r[j].id {
        assert r[i] == items[if i < k then i else i + 1];
        assert r[j] == items[if j < k then j else j + 1];
      }
    }
  }

  /** Deleting the record at position `k` together with its movements
      leaves every surviving movement linked to a surviving record. */
  lemma RemoveRecordKeepsLinks(products: map<nat, Product>, items: seq<Item>, movements: seq<Movement>,
                               nextProductId: nat, nextItemId: nat, k: nat)
    requires LedgerOk(products, items, movements, nextProductId, nextItemId)
    requires k < |items|
    ensures LogOk(items[..k] + items[k + 1..], DropItemMovements(movements, items[k].id))
  {
    var id := items[k].id;
    var r := items[..k] + items[k + 1..];
    var kept := DropItemMovements(movements, id);
    DropItemMovementsMembers(movements, id);
    forall j | 0 <= j < |kept|
      ensures kept[j].quantity > 0 && HasRecord(r, kept[j].itemId, kept[j].productId)
    {
      var m := kept[j];
      assert m in kept;
      var jj :| 0 <= jj < |movements| && movements[jj] == m;
      var k' :| 0 <= k' < |items| && items[k'].id == m.itemId && items[k'].productId == m.productId;
      assert k' != k;
      var i := if k' < k then k' else k' - 1;
      assert r[i] == items[k'];
    }
  }

  /** Deleting a record together with its movements leaves every other
      record's net equal to its quantity. */
  lemma RemoveRecordKeepsConservation(items: seq<Item>, movements: seq<Movement>, k: nat)
    requires IdsIncreasing(items) && Conserved(items, movements)
    requires k < |items|
    ensures Conserved(items[..k] + items[k + 1..], DropItemMovements(movements, items[k].id))
  {
    var id := items[k].id;
    var r := items[..k] + items[k + 1..];
    forall i | 0 <= i < |r|
      ensures Net(DropItemMovements(movements, id), r[i].id) == r[i].quantity
    {
      var k' := if i < k then i else i + 1;
      assert r[i] == items[k'];
      NetDropItem(movements, id, r[i].id);
    }
  }

  /** Deleting a record together with its movements keeps the ledger
      consistent. */
  lemma RemoveRecordKeepsLedger(products: map<nat, Product>, items: seq<Item>, movements: seq<Movement>,
                                nextProductId: nat, nextItemId: nat, k: nat)
    requires LedgerOk(products, items, movements, nextProductId, nextItemId)
    requires k < |items|
    ensures LedgerOk(products, items[..k] + items[k + 1..], DropItemMovements(movements, items[k].id),
                     nextProductId, nextItemId)
  {
    RemoveRecordKeepsRecords(products, items, nextItemId, k);
    RemoveRecordKeepsLinks(products, items, movements, nextProductId, nextItemId, k);
    RemoveRecordKeepsConservation(items, movements, k);
  }

  /** Adding a product under the next free id, with a positive price and an
      upper-case SKU no product has yet, keeps the ledger consistent. */
  lemma AddProductKeepsLedger(products: map<nat, Product>, items: seq<Item>, movements: seq<Movement>,
                              nextProductId: nat, nextItemId: nat, p: Product)
    requires LedgerOk(products, items, movements, nextProductId, nextItemId)
    requires p.priceCents > 0 && IsUpper(p.sku)
    requires forall id :: id in products ==> products[id].sku != p.sku
    ensures LedgerOk(products[nextProductId := p], items, movements, nextProductId + 1, nextItemId)
  {
  }

  /** Replacing a product by one with a positive price and an upper-case
      SKU no other product has keeps the ledger consistent. */
  lemma ReplaceProductKeepsLedger(products: map<nat, Product>, items: seq<Item>, movements: seq<Movement>,
                                  nextProductId: nat, nextItemId: nat, id: nat, p: Product)
    requires LedgerOk(products, items, movements, nextProductId, nextItemId)
    requires id in products && p.priceCents > 0 && IsUpper(p.sku)
    requires forall other :: other in products && other != id ==> products[other].sku != p.sku
    ensures LedgerOk(products[id := p], items, movements, nextProductId, nextItemId)
  {
  }

  /** Deleting a product together with its records and its movements keeps
      the ledger consistent: no surviving movement was linked to a deleted
      record, and no surviving record loses a movement. */
  lemma RemoveProductKeepsLedger(products: map<nat, Product>, items: seq<Item>, movements: seq<Movement>,
                                 nextProductId: nat, nextItemId: nat, id: nat)
    requires LedgerOk(products, items, movements, nextProductId, nextItemId)
    ensures LedgerOk(products - {id}, DropProductItems(items, id), DropProductMovements(movements, id),
                     nextProductId, nextItemId)
  {
    var r := DropProductItems(items, id);
    var kept := DropProductMovements(movements, id);
    DropProductItemsMembers(items, id);
    DropProductItemsIncreasing(items, id);
    DropProductMovementsMembers(movements, id);
    forall i | 0 <= i < |r|
      ensures RecordOk(r[i]) && r[i].productId in products - {id} && r[i].id < nextItemId
      ensures Net(kept, r[i].id) == r[i].quantity
    {
      assert r[i] in r;
      var k :| 0 <= k < |items| && items[k] == r[i];
      forall j | 0 <= j < |movements| && movements[j].itemId == r[i].id
        ensures movements[j].productId != id
      {
        LinkedProduct(items, k, r[i].id, movements[j].productId);
      }
      NetDropProduct(movements, id, r[i].id);
    }
    forall j | 0 <= j < |kept|
      ensures kept[j].quantity > 0 && HasRecord(r, kept[j].itemId, kept[j].productId)
    {
      var m := kept[j];
      assert m in kept;
      var jj :| 0 <= jj < |movements| && movements[jj] == m;
      var k :| 0 <= k < |items| && items[k].id == m.itemId && items[k].productId == m.productId;
      assert items[k] in r;
      var i :| 0 <= i < |r| && r[i] == items[k];
    }
  }

  // ---------------------------------------------------------------------
  // Conservation per product

  /** Sum of the quantities of `productId`'s records. */
  function ProductStock(items: seq<Item>, productId: nat): int
  {
    if items == [] then 0
    else (if items[0].productId == productId then items[0].quantity else 0) + ProductStock(items[1..], productId)
  }

  /** Appending a record adds its quantity to its own product's stock only. */
  lemma {:induction false} ProductStockSnoc(items: seq<Item>, x: Item, productId: nat)
    ensures ProductStock(items + [x], productId)
            == ProductStock(items, productId) + (if x.productId == productId then x.quantity else 0)
  {
    if items != [] {
      ProductStockSnoc(items[1..], x, productId);
      assert (items + [x])[1..] == items[1..] + [x];
    } else {
      assert [x][1..] == [];
    }
  }

  /** Sum of IN minus sum of OUT over `productId`'s movements. */
  function ProductNet(movements: seq<Movement>, productId: nat): int
  {
    if movements == [] then 0
    else
      var last := movements[|movements| - 1];
      ProductNet(movements[..|movements| - 1], productId) + (if last.productId == productId then Signed(last) else 0)
  }

  /** Sum over `productId`'s records of each record's net. */
  function RecordNets(items: seq<Item>, productId: nat, movements: seq<Movement>): int
  {
    if items == [] then 0
    else (if items[0].productId == productId then Net(movements, items[0].id) else 0)
         + RecordNets(items[1..], productId, movements)
  }

  lemma {:induction false} RecordNetsOfConserved(items: seq<Item>, productId: nat, movements: seq<Movement>)
    requires Conserved(items, movements)
    ensures RecordNets(items, productId, movements) == ProductStock(items, productId)
  {
    if items != [] {
      RecordNetsOfConserved(items[1..], productId, movements);
    }
  }

  lemma {:induction false} RecordNetsSnoc(items: seq<Item>, productId: nat, movements: seq<Movement>, m: Movement)
    requires IdsIncreasing(items)
    ensures RecordNets(items, productId, movements + [m])
         == RecordNets(items, productId, movements) + (if HasRecord(items, m.itemId, productId) then Signed(m) else 0)
  {
    assert (movements + [m])[..|movements|] == movements;
    if items != [] {
      var tail := items[1..];
      RecordNetsSnoc(tail, productId, movements, m);
      if HasRecord(items, m.itemId, productId) {
        var k :| 0 <= k < |items| && items[k].id == m.itemId && items[k].productId == productId;
        if k > 0 {
          assert tail[k - 1] == items[k];
        }
      }
      if HasRecord(tail, m.itemId, productId) {
        var k :| 0 <= k < |tail| && tail[k].id == m.itemId && tail[k].productId == productId;
        assert items[k + 1] == tail[k];
      }
    }
  }

  lemma {:induction false} RecordNetsIsProductNet(items: seq<Item>, productId: nat, movements: seq<Movement>)
    requires IdsIncreasing(items)
    requires LogOk(items, movements)
    ensures RecordNets(items, productId, movements) == ProductNet(movements, productId)
  {
    if movements == [] {
      RecordNetsOfEmptyLog(items, productId);
    } else {
      var n := |movements| - 1;
      var m := movements[n];
      assert movements == movements[..n] + [m];
      RecordNetsIsProductNet(items, productId, movements[..n]);
      RecordNetsSnoc(items, productId, movements[..n], m);
      var k :| 0 <= k < |items| && items[k].id == m.itemId && items[k].productId == m.productId;
      if HasRecord(items, m.itemId, productId) {
        LinkedProduct(items, k, m.itemId, productId);
      }
    }
  }

  lemma {:induction false} RecordNetsOfEmptyLog(items: seq<Item>, productId: nat)
    ensures RecordNets(items, productId, []) == 0
  {
    if items != [] {
      RecordNetsOfEmptyLog(items[1..], productId);
    }
  }

  /** Conservation per product: in a consistent ledger, the sum of IN
      minus the sum of OUT over a product's movements equals the sum of its
      records' quantities. */
  lemma ProductConservation(products: map<nat, Product>, items: seq<Item>, movements: seq<Movement>,
                            nextProductId: nat, nextItemId: nat, productId: nat)
    requires LedgerOk(products, items, movements, nextProductId, nextItemId)
    ensures ProductNet(movements, productId) == ProductStock(items, productId)
  {
    RecordNetsOfConserved(items, productId, movements);
    RecordNetsIsProductNet(items, productId, movements);
  }
}
