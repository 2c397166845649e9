/** The ledger's invariants over the stored tables, the movement-log
    arithmetic behind conservation, and the lookups and cascade deletes the
    operations are written with. */
module Ledger {
  import opened Models
  import opened Text

  // ---------------------------------------------------------------------
  // Movement-log arithmetic

  /** The signed effect of one movement on its record's quantity. */
  function Signed(m: Movement): int
  {
    if m.kind == IN then m.quantity else -m.quantity
  }

  /** Sum of IN minus sum of OUT over the movements linked to record `id`,
      replayed in log order. */
  function Net(movements: seq<Movement>, id: nat): int
  {
    if movements == [] then 0
    else
      var last := movements[|movements| - 1];
      Net(movements[..|movements| - 1], id) + (if last.itemId == id then Signed(last) else 0)
  }

  /** Replaying two stretches of the log one after the other adds up. */
  lemma {:induction false} NetAppend(a: seq<Movement>, b: seq<Movement>, id: nat)
    ensures Net(a + b, id) == Net(a, id) + Net(b, id)
  {
    if b == [] {
      assert a + b == a;
    } else {
      var n := |b| - 1;
      assert (a + b)[..|a + b| - 1] == a + b[..n];
      NetAppend(a, b[..n], id);
    }
  }

  /** A record no movement refers to has a net of zero. */
  lemma {:induction false} NetUnlinked(movements: seq<Movement>, id: nat)
    requires forall j :: 0 <= j < |movements| ==> movements[j].itemId != id
    ensures Net(movements, id) == 0
  {
    if movements != [] {
      NetUnlinked(movements[..|movements| - 1], id);
    }
  }

  // ---------------------------------------------------------------------
  // Invariants of the stored tables

  /** Record ids ascend along the table: table order is creation order. */
  predicate IdsIncreasing(items: seq<Item>)
  {
    forall i, j :: 0 <= i < j < |items| ==> items[i].id < items[j].id
  }

  predicate IdsBelow(items: seq<Item>, nextItemId: nat)
  {
    forall i :: 0 <= i < |items| ==> items[i].id < nextItemId
  }

  /** The column constraints of a stock record: quantity >= 0,
      safety_stock >= 0, and a location of 2 to 100 characters. */
  predicate RecordOk(item: Item)
  {
    item.quantity >= 0 && item.safetyStock >= 0 && ValidLocation(item.location)
  }

  /** Some record has id `id` and belongs to product `productId`. */
  predicate HasRecord(items: seq<Item>, id: nat, productId: nat)
  {
    exists k :: 0 <= k < |items| && items[k].id == id && items[k].productId == productId
  }

  /** Product ids are below the next id to hand out, prices are positive,
      and SKUs are upper case and pairwise distinct. */
  predicate CatalogOk(products: map<nat, Product>, nextProductId: nat)
  {
    && (forall id :: id in products ==>
          id < nextProductId && products[id].priceCents > 0 && IsUpper(products[id].sku))
    && (forall a, b :: a in products && b in products && a != b ==> products[a].sku != products[b].sku)
  }

  predicate RecordsOk(items: seq<Item>, products: map<nat, Product>, nextItemId: nat)
  {
    && IdsIncreasing(items)
    && IdsBelow(items, nextItemId)
    && forall k :: 0 <= k < |items| ==> RecordOk(items[k]) && items[k].productId in products
  }

  /** Every movement has a positive quantity and is linked to an existing
      record of the same product. */
  predicate LogOk(items: seq<Item>, movements: seq<Movement>)
  {
    forall j :: 0 <= j < |movements| ==>
      movements[j].quantity > 0 && HasRecord(items, movements[j].itemId, movements[j].productId)
  }

  /** Conservation: replaying a record's movements from zero gives its
      current quantity. */
  predicate Conserved(items: seq<Item>, movements: seq<Movement>)
  {
    forall k :: 0 <= k < |items| ==> Net(movements, items[k].id) == items[k].quantity
  }

  predicate LedgerOk(products: map<nat, Product>, items: seq<Item>, movements: seq<Movement>,
                     nextProductId: nat, nextItemId: nat)
  {
    && CatalogOk(products, nextProductId)
    && RecordsOk(items, products, nextItemId)
    && LogOk(items, movements)
    && Conserved(items, movements)
  }

  /** Two tables with the same records in the same places, up to the
      mutable columns (quantity, location, safety stock). */
  predicate SameKeys(a: seq<Item>, b: seq<Item>)
  {
    |a| == |b| && forall k :: 0 <= k < |a| ==> a[k].id == b[k].id && a[k].productId == b[k].productId
  }

  lemma SameKeysKeepLinks(a: seq<Item>, b: seq<Item>, movements: seq<Movement>)
    requires SameKeys(a, b)
    requires LogOk(a, movements)
    ensures LogOk(b, movements)
    ensures IdsIncreasing(a) ==> IdsIncreasing(b)
  {
    forall j | 0 <= j < |movements|
      ensures HasRecord(b, movements[j].itemId, movements[j].productId)
    {
      var k :| 0 <= k < |a| && a[k].id == movements[j].itemId && a[k].productId == movements[j].productId;
      assert b[k].id == movements[j].itemId && b[k].productId == movements[j].productId;
    }
  }

  /** Under distinct ids, the record a movement is linked to is the one
      carrying that id, so its product is that record's product. */
  lemma LinkedProduct(items: seq<Item>, k: nat, id: nat, productId: nat)
    requires IdsIncreasing(items)
    requires k < |items| && items[k].id == id
    requires HasRecord(items, id, productId)
    ensures items[k].productId == productId
  {
    var k' :| 0 <= k' < |items| && items[k'].id == id && items[k'].productId == productId;
    assert k' == k;
  }

  // ---------------------------------------------------------------------
  // Lookups

  /** The record at (productId, location): the `.first()` of the lookup
      query, taken as the lowest id when several match. */
  function FindRecord(items: seq<Item>, productId: nat, location: string): (r: Option<nat>)
    ensures r.Some? ==> r.value < |items| && items[r.value].productId == productId && items[r.value].location == location
    ensures r.Some? ==> forall k :: 0 <= k < r.value ==> !(items[k].productId == productId && items[k].location == location)
    ensures r.None? <==> forall k :: 0 <= k < |items| ==> !(items[k].productId == productId && items[k].location == location)
  {
    if items == [] then None
    else if items[0].productId == productId && items[0].location == location then Some(0)
    else
      match FindRecord(items[1..], productId, location)
      case None => None
      case Some(k) => Some(k + 1)
  }

  /** The record with primary key `id`. */
  function FindById(items: seq<Item>, id: nat): (r: Option<nat>)
    ensures r.Some? ==> r.value < |items| && items[r.value].id == id
    ensures r.None? <==> forall k :: 0 <= k < |items| ==> items[k].id != id
  {
    if items == [] then None
    else if items[0].id == id then Some(0)
    else
      match FindById(items[1..], id)
      case None => None
      case Some(k) => Some(k + 1)
  }

  /** The records of `productId` holding stock, in table (id) order. */
  function Available(items: seq<Item>, productId: nat): (r: seq<Item>)
    ensures |r| <= |items|
    ensures forall i :: 0 <= i < |r| ==> r[i].productId == productId && r[i].quantity > 0
  {
    if items == [] then []
    else
      var rest := Available(items[1..], productId);
      if items[0].productId == productId && items[0].quantity > 0 then [items[0]] + rest else rest
  }

  /** `Available` keeps exactly the product's records holding stock. */
  lemma {:induction false} AvailableMembers(items: seq<Item>, productId: nat)
    ensures forall x :: x in Available(items, productId) <==> x in items && x.productId == productId && x.quantity > 0
  {
    if items != [] {
      AvailableMembers(items[1..], productId);
      assert items == [items[0]] + items[1..];
    }
  }

  function SumQuantity(items: seq<Item>): int
  {
    if items == [] then 0 else items[0].quantity + SumQuantity(items[1..])
  }

  lemma {:induction false} AvailableSumNonNegative(items: seq<Item>, productId: nat)
    ensures SumQuantity(Available(items, productId)) >= 0
  {
    if items != [] {
      AvailableSumNonNegative(items[1..], productId);
    }
  }

  // ---------------------------------------------------------------------
  // Cascade deletes

  /** The table without the records of `productId`. */
  function DropProductItems(items: seq<Item>, productId: nat): (r: seq<Item>)
    ensures |r| <= |items|
    ensures forall i :: 0 <= i < |r| ==> r[i].productId != productId
  {
    if items == [] then []
    else
      var rest := DropProductItems(items[1..], productId);
      if items[0].productId != productId then [items[0]] + rest else rest
  }

  /** `DropProductItems` keeps exactly the other products' records. */
  lemma {:induction false} DropProductItemsMembers(items: seq<Item>, productId: nat)
    ensures forall x :: x in DropProductItems(items, productId) <==> x in items && x.productId != productId
  {
    if items != [] {
      DropProductItemsMembers(items[1..], productId);
      assert items == [items[0]] + items[1..];
    }
  }

  /** `DropProductItems` keeps the records in id order. */
  lemma {:induction false} DropProductItemsIncreasing(items: seq<Item>, productId: nat)
    requires IdsIncreasing(items)
    ensures IdsIncreasing(DropProductItems(items, productId))
  {
    if items != [] {
      var rest := DropProductItems(items[1..], productId);
      DropProductItemsIncreasing(items[1..], productId);
      DropProductItemsMembers(items[1..], productId);
      if items[0].productId != productId {
        var r := [items[0]] + rest;
        forall i, j | 0 <= i < j < |r| ensures r[i].id < r[j].id {
          assert r[j] == rest[j - 1];
          if i > 0 {
            assert r[i] == rest[i - 1];
          } else {
            assert rest[j - 1] in items[1..];
            var k :| 0 <= k < |items[1..]| && items[1..][k] == rest[j - 1];
            assert items[k + 1] == rest[j - 1];
          }
        }
      }
    }
  }

  /** The log without the movements of `productId`. */
  function DropProductMovements(movements: seq<Movement>, productId: nat): (r: seq<Movement>)
    ensures |r| <= |movements|
    ensures forall i :: 0 <= i < |r| ==> r[i].productId != productId
  {
    if movements == [] then []
    else
      var n := |movements| - 1;
      var rest := DropProductMovements(movements[..n], productId);
      if movements[n].productId != productId then rest + [movements[n]] else rest
  }

  /** `DropProductMovements` keeps exactly the other products' movements. */
  lemma {:induction false} DropProductMovementsMembers(movements: seq<Movement>, productId: nat)
    ensures forall m :: m in DropProductMovements(movements, productId) <==> m in movements && m.productId != productId
  {
    if movements != [] {
      var n := |movements| - 1;
      DropProductMovementsMembers(movements[..n], productId);
      assert movements == movements[..n] + [movements[n]];
    }
  }

  /** The log without the movements linked to record `itemId`. */
  function DropItemMovements(movements: seq<Movement>, itemId: nat): (r: seq<Movement>)
    ensures |r| <= |movements|
    ensures forall i :: 0 <= i < |r| ==> r[i].itemId != itemId
  {
    if movements == [] then []
    else
      var n := |movements| - 1;
      var rest := DropItemMovements(movements[..n], itemId);
      if movements[n].itemId != itemId then rest + [movements[n]] else rest
  }

  /** `DropItemMovements` keeps exactly the movements of other records. */
  lemma {:induction false} DropItemMovementsMembers(movements: seq<Movement>, itemId: nat)
    ensures forall m :: m in DropItemMovements(movements, itemId) <==> m in movements && m.itemId != itemId
  {
    if movements != [] {
      var n := |movements| - 1;
      DropItemMovementsMembers(movements[..n], itemId);
      assert movements == movements[..n] + [movements[n]];
    }
  }

  /** Removing another product's movements does not change a record's net. */
  lemma {:induction false} NetDropProduct(movements: seq<Movement>, productId: nat, id: nat)
    requires forall j :: 0 <= j < |movements| && movements[j].itemId == id ==> movements[j].productId != productId
    ensures Net(DropProductMovements(movements, productId), id) == Net(movements, id)
  {
    if movements != [] {
      var n := |movements| - 1;
      NetDropProduct(movements[..n], productId, id);
      var rest := DropProductMovements(movements[..n], productId);
      if movements[n].productId != productId {
        assert (rest + [movements[n]])[..|rest|] == rest;
      }
    }
  }

  /** Removing another record's movements does not change a record's net. */
  lemma {:induction false} NetDropItem(movements: seq<Movement>, itemId: nat, id: nat)
    requires id != itemId
    ensures Net(DropItemMovements(movements, itemId), id) == Net(movements, id)
  {
    if movements != [] {
      var n := |movements| - 1;
      NetDropItem(movements[..n], itemId, id);
      var rest := DropItemMovements(movements[..n], itemId);
      if movements[n].itemId != itemId {
        assert (rest + [movements[n]])[..|rest|] == rest;
      }
    }
  }
}
