/** The stock-record endpoints that act on one record directly: patch its
    location or safety stock, and delete it. Quantities move only through
    stock-in and stock-out, so a patch may not change one. */
module ItemEndpoints {
  import opened Models
  import opened Ledger
  import opened Preservation
  import opened Tables

  /** The body of a record patch request: `None` marks a field the request
      leaves unset. */
  datatype ItemUpdate = ItemUpdate(quantity: Option<int>, location: Option<string>, safetyStock: Option<int>)

  /** The field rules of a record patch request, for the fields it sets. */
  predicate ValidItemUpdate(patch: ItemUpdate)
  {
    && (patch.quantity.Some? ==> patch.quantity.value >= 0)
    && (patch.location.Some? ==> ValidLocation(patch.location.value))
    && (patch.safetyStock.Some? ==> patch.safetyStock.value >= 0)
  }

  /** The patch sets no quantity other than the record's own. */
  predicate KeepsQuantity(x: Item, patch: ItemUpdate)
  {
    patch.quantity.None? || patch.quantity.value == x.quantity
  }

  /** Record `x` with every field the patch sets overwritten. */
  function PatchedItem(x: Item, patch: ItemUpdate): (y: Item)
    ensures y.id == x.id && y.productId == x.productId
    ensures KeepsQuantity(x, patch) <==> y.quantity == x.quantity
    ensures patch.quantity.Some? ==> y.quantity == patch.quantity.value
    ensures patch.quantity.None? ==> y.quantity == x.quantity
    ensures patch.location.Some? ==> y.location == patch.location.value
    ensures patch.location.None? ==> y.location == x.location
    ensures patch.safetyStock.Some? ==> y.safetyStock == patch.safetyStock.value
    ensures patch.safetyStock.None? ==> y.safetyStock == x.safetyStock
    ensures RecordOk(x) && ValidItemUpdate(patch) ==> RecordOk(y)
  {
    x.(quantity := if patch.quantity.Some? then patch.quantity.value else x.quantity,
       location := if patch.location.Some? then patch.location.value else x.location,
       safetyStock := if patch.safetyStock.Some? then patch.safetyStock.value else x.safetyStock)
  }

  /** Patch record `itemId`: refuse a quantity that differs from the
      stored one, otherwise overwrite the fields the patch sets. */
  method UpdateItem(store: Store, itemId: nat, patch: ItemUpdate) returns (r: Result<Item>)
    requires store.Valid() && ValidItemUpdate(patch)
    modifies store
    ensures store.Valid()
    ensures store.products == old(store.products) && store.movements == old(store.movements)
    ensures store.nextProductId == old(store.nextProductId) && store.nextItemId == old(store.nextItemId)
    ensures FindById(old(store.items), itemId).None? ==>
      r == Err(ItemNotFound) && store.items == old(store.items)
    ensures FindById(old(store.items), itemId).Some? ==>
      var k := FindById(old(store.items), itemId).value;
      && (!KeepsQuantity(old(store.items)[k], patch) ==>
            r == Err(QuantityChangeRejected) && store.items == old(store.items))
      && (KeepsQuantity(old(store.items)[k], patch) ==>
            && r == Ok(PatchedItem(old(store.items)[k], patch))
            && store.items == old(store.items)[k := r.value])
  {
    var found := FindById(store.items, itemId);
    if found.None? {
      return Err(ItemNotFound);
    }
    var k := found.value;
    var current := store.items[k];
    if patch.quantity.Some? && patch.quantity.value != current.quantity {
      return Err(QuantityChangeRejected);
    }
    var updated := PatchedItem(current, patch);
    store.PatchRecord(k, updated.location, updated.safetyStock);
    r := Ok(updated);
  }

  /** Delete record `itemId` together with its movements. */
  method DeleteItem(store: Store, itemId: nat) returns (r: Result<()>)
    requires store.Valid()
    modifies store
    ensures store.Valid()
    ensures store.products == old(store.products)
    ensures store.nextProductId == old(store.nextProductId) && store.nextItemId == old(store.nextItemId)
    ensures FindById(old(store.items), itemId).None? ==>
      && r == Err(ItemNotFound)
      && store.items == old(store.items) && store.movements == old(store.movements)
    ensures FindById(old(store.items), itemId).Some? ==>
      var k := FindById(old(store.items), itemId).value;
      && r == Ok(())
      && store.items == old(store.items)[..k] + old(store.items)[k + 1..]
      && store.movements == DropItemMovements(old(store.movements), itemId)
      && (forall m :: m in store.movements <==> m in old(store.movements) && m.itemId != itemId)
  {
    var found := FindById(store.items, itemId);
    if found.None? {
      return Err(ItemNotFound);
    }
    DropItemMovementsMembers(store.movements, itemId);
    store.RemoveRecord(found.value);
    r := Ok(());
  }

  /** Patching a record's location or safety stock leaves every product's
      stock as it was. */
  lemma {:induction false} PatchKeepsStock(items: seq<Item>, k: nat, location: string, safetyStock: int, productId: nat)
    requires k < |items|
    ensures ProductStock(items[k := items[k].(location := location, safetyStock := safetyStock)], productId)
            == ProductStock(items, productId)
    decreases k
  {
    var patched := items[k := items[k].(location := location, safetyStock := safetyStock)];
    if k > 0 {
      PatchKeepsStock(items[1..], k - 1, location, safetyStock, productId);
      assert patched[1..] == items[1..][k - 1 := items[k].(location := location, safetyStock := safetyStock)];
    } else {
      assert patched[1..] == items[1..];
    }
  }

  /** Deleting a record lowers its product's stock by exactly the record's
      quantity and leaves every other product's stock as it was. */
  lemma {:induction false} DeleteItemStock(items: seq<Item>, k: nat, productId: nat)
    requires k < |items|
    ensures ProductStock(items[..k] + items[k + 1..], productId)
            == ProductStock(items, productId) - (if items[k].productId == productId then items[k].quantity else 0)
    decreases k
  {
    if k > 0 {
      DeleteItemStock(items[1..], k - 1, productId);
      var rest := items[1..][..k - 1] + items[1..][k..];
      assert items[..k] + items[k + 1..] == [items[0]] + rest;
      assert ([items[0]] + rest)[1..] == rest;
    } else {
      assert items[..k] + items[k + 1..] == items[1..];
    }
  }
}
