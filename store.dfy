/** The database the service and the endpoints work against: the product,
    warehouse_item and movement tables, with the primary keys the next
    inserts will receive. Every operation runs in one transaction: it
    computes the new tables and installs them only when it succeeds. */
module Tables {
  import opened Models
  import opened Text
  import opened Ledger
  import opened Preservation
  import opened Allocation

  class Store {
    /** product rows by id */
    var products: map<nat, Product>
    /** warehouse_item rows in id order */
    var items: seq<Item>
    /** movement rows in insertion order: the audit log */
    var movements: seq<Movement>
    var nextProductId: nat
    var nextItemId: nat

    /** The ledger invariants every committed state satisfies. */
    ghost predicate Valid()
      reads this
    {
      LedgerOk(products, items, movements, nextProductId, nextItemId)
    }

    /** An empty database. */
    constructor ()
      ensures Valid()
      ensures products == map[] && items == [] && movements == []
      ensures nextProductId == 0 && nextItemId == 0
    {
      products := map[];
      items := [];
      movements := [];
      nextProductId := 0;
      nextItemId := 0;
    }

    /** Log movement `m` against the record at position `k` and move that
        record's quantity by the movement's signed amount. */
    method Apply(k: nat, m: Movement)
      requires Valid()
      requires k < |items| && m.itemId == items[k].id && m.productId == items[k].productId
      requires m.quantity > 0 && items[k].quantity + Signed(m) >= 0
      modifies this
      ensures Valid()
      ensures items == old(items)[k := old(items)[k].(quantity := old(items)[k].quantity + Signed(m))]
      ensures movements == old(movements) + [m]
      ensures products == old(products) && nextProductId == old(nextProductId) && nextItemId == old(nextItemId)
    {
      AdjustKeepsLedger(products, items, movements, nextProductId, nextItemId, k, m);
      items, movements := items[k := items[k].(quantity := items[k].quantity + Signed(m))], movements + [m];
    }

    /** Insert a record of `quantity` units of a product at `location` with
        the default safety stock, and log the IN movement that created it. */
    method Open(productId: nat, location: string, quantity: int, remarks: Option<string>)
      requires Valid()
      requires productId in products && quantity > 0 && ValidLocation(location)
      modifies this
      ensures Valid()
      ensures items == old(items) + [Item(old(nextItemId), productId, location, quantity, DEFAULT_SAFETY_STOCK)]
      ensures movements == old(movements) + [Movement(productId, old(nextItemId), IN, quantity, remarks)]
      ensures nextItemId == old(nextItemId) + 1
      ensures products == old(products) && nextProductId == old(nextProductId)
    {
      AddRecordKeepsLedger(products, items, movements, nextProductId, nextItemId, productId, location, quantity, remarks);
      items := items + [Item(nextItemId, productId, location, quantity, DEFAULT_SAFETY_STOCK)];
      movements := movements + [Movement(productId, nextItemId, IN, quantity, remarks)];
      nextItemId := nextItemId + 1;
    }

    /** Install the table and the OUT movements of a greedy allocation of
        `quantity` units of a product across its records. */
    method Allocate(walked: seq<Item>, written: seq<Movement>, productId: nat, quantity: nat, remarks: Option<string>)
      requires Valid()
      requires walked == Allocated(items, productId, quantity)
      requires written == AllocationMovements(items, productId, quantity, remarks)
      modifies this
      ensures Valid()
      ensures items == walked && movements == old(movements) + written
      ensures products == old(products) && nextProductId == old(nextProductId) && nextItemId == old(nextItemId)
    {
      AllocationKeepsLedger(products, items, movements, nextProductId, nextItemId, productId, quantity, remarks);
      items, movements := walked, movements + written;
    }

    /** Insert product `p` under the next product id. */
    method AddProduct(p: Product)
      requires Valid()
      requires p.priceCents > 0 && IsUpper(p.sku)
      requires forall id :: id in products ==> products[id].sku != p.sku
      modifies this
      ensures Valid()
      ensures products == old(products)[old(nextProductId) := p] && nextProductId == old(nextProductId) + 1
      ensures items == old(items) && movements == old(movements) && nextItemId == old(nextItemId)
    {
      AddProductKeepsLedger(products, items, movements, nextProductId, nextItemId, p);
      products, nextProductId := products[nextProductId := p], nextProductId + 1;
    }

    /** Overwrite the columns of product `id` with those of `p`. */
    method ReplaceProduct(id: nat, p: Product)
      requires Valid()
      requires id in products && p.priceCents > 0 && IsUpper(p.sku)
      requires forall other :: other in products && other != id ==> products[other].sku != p.sku
      modifies this
      ensures Valid()
      ensures products == old(products)[id := p]
      ensures items == old(items) && movements == old(movements)
      ensures nextProductId == old(nextProductId) && nextItemId == old(nextItemId)
    {
      ReplaceProductKeepsLedger(products, items, movements, nextProductId, nextItemId, id, p);
      products := products[id := p];
    }

    /** Delete product `id` and, by cascade, its records and its movements. */
    method RemoveProduct(id: nat)
      requires Valid()
      modifies this
      ensures Valid()
      ensures products == old(products) - {id}
      ensures items == DropProductItems(old(items), id)
      ensures movements == DropProductMovements(old(movements), id)
      ensures nextProductId == old(nextProductId) && nextItemId == old(nextItemId)
    {
      RemoveProductKeepsLedger(products, items, movements, nextProductId, nextItemId, id);
      products, items, movements := products - {id}, DropProductItems(items, id), DropProductMovements(movements, id);
    }

    /** Set the location and the safety stock of the record at position `k`. */
    method PatchRecord(k: nat, location: string, safetyStock: int)
      requires Valid()
      requires k < |items| && ValidLocation(location) && safetyStock >= 0
      modifies this
      ensures Valid()
      ensures items == old(items)[k := old(items)[k].(location := location, safetyStock := safetyStock)]
      ensures products == old(products) && movements == old(movements)
      ensures nextProductId == old(nextProductId) && nextItemId == old(nextItemId)
    {
      PatchRecordKeepsLedger(products, items, movements, nextProductId, nextItemId, k, location, safetyStock);
      items := items[k := items[k].(location := location, safetyStock := safetyStock)];
    }

    /** Delete the record at position `k` and, by cascade, its movements. */
    method RemoveRecord(k: nat)
      requires Valid()
      requires k < |items|
      modifies this
      ensures Valid()
      ensures items == old(items)[..k] + old(items)[k + 1..]
      ensures movements == DropItemMovements(old(movements), old(items)[k].id)
      ensures products == old(products)
      ensures nextProductId == old(nextProductId) && nextItemId == old(nextItemId)
    {
      RemoveRecordKeepsLedger(products, items, movements, nextProductId, nextItemId, k);
      items, movements := items[..k] + items[k + 1..], DropItemMovements(movements, items[k].id);
    }
  }
}
