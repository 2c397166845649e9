/** The product endpoints: create, read, patch and delete a catalog product.
    SKUs are stored upper-cased and are unique across the catalog; deleting
    a product deletes its stock records and its movements with it. */
module ProductEndpoints {
  import opened Models
  import opened Text
  import opened Ledger
  import opened Preservation
  import opened Tables

  /** The body of a create request. */
  datatype ProductCreate = ProductCreate(name: string, description: Option<string>, sku: string, priceCents: int)

  /** The body of a patch request: `None` marks a field the request leaves
      unset. */
  datatype ProductUpdate = ProductUpdate(name: Option<string>, description: Option<string>,
                                         sku: Option<string>, priceCents: Option<int>)

  /** The field rules a create request is validated against before the
      endpoint runs. */
  predicate ValidCreate(request: ProductCreate)
  {
    && 2 <= |request.name| <= 100
    && (request.description.Some? ==> |request.description.value| <= 500)
    && 3 <= |request.sku| <= 50
    && request.priceCents > 0
  }

  /** The field rules of a patch request, for the fields it sets. */
  predicate ValidUpdate(patch: ProductUpdate)
  {
    && (patch.name.Some? ==> 2 <= |patch.name.value| <= 100)
    && (patch.description.Some? ==> |patch.description.value| <= 500)
    && (patch.sku.Some? ==> 3 <= |patch.sku.value| <= 50)
    && (patch.priceCents.Some? ==> patch.priceCents.value > 0)
  }

  /** Some product in `products` is stored under SKU `sku`. */
  predicate SkuTaken(products: map<nat, Product>, sku: string)
  {
    exists id :: id in products && products[id].sku == sku
  }

  /** The product a create request inserts. */
  function Created(request: ProductCreate): (p: Product)
    ensures p.name == request.name && p.description == request.description
    ensures p.priceCents == request.priceCents
    ensures p.sku == Upper(request.sku) && IsUpper(p.sku) && |p.sku| == |request.sku|
    ensures ValidCreate(request) ==> p.priceCents > 0
  {
    Product(request.name, request.description, Upper(request.sku), request.priceCents)
  }

  /** Product `p` with the fields a patch sets overwritten, the SKU
      upper-cased. */
  function Patched(p: Product, patch: ProductUpdate): (q: Product)
    ensures patch.name.None? ==> q.name == p.name
    ensures patch.name.Some? ==> q.name == patch.name.value
    ensures patch.description.None? ==> q.description == p.description
    ensures patch.description.Some? ==> q.description == patch.description
    ensures patch.priceCents.None? ==> q.priceCents == p.priceCents
    ensures patch.priceCents.Some? ==> q.priceCents == patch.priceCents.value
    ensures patch.sku.None? ==> q.sku == p.sku
    ensures patch.sku.Some? ==> q.sku == Upper(patch.sku.value)
    ensures IsUpper(p.sku) ==> IsUpper(q.sku)
    ensures p.priceCents > 0 && ValidUpdate(patch) ==> q.priceCents > 0
  {
    Product(if patch.name.Some? then patch.name.value else p.name,
            if patch.description.Some? then patch.description else p.description,
            if patch.sku.Some? then Upper(patch.sku.value) else p.sku,
            if patch.priceCents.Some? then patch.priceCents.value else p.priceCents)
  }

  /** Applying the same patch twice has the effect of applying it once. */
  lemma PatchIdempotent(p: Product, patch: ProductUpdate)
    ensures Patched(Patched(p, patch), patch) == Patched(p, patch)
  {
    if patch.sku.Some? {
      UpperFixesUpper(Upper(patch.sku.value));
    }
  }

  /** Create a product: refuse a SKU whose upper-case form is already in the
      catalog, otherwise insert the product with its SKU upper-cased under
      the next product id. */
  method CreateProduct(store: Store, request: ProductCreate) returns (r: Result<nat>)
    requires store.Valid() && ValidCreate(request)
    modifies store
    ensures store.Valid()
    ensures store.items == old(store.items) && store.movements == old(store.movements)
    ensures store.nextItemId == old(store.nextItemId)
    ensures SkuTaken(old(store.products), Upper(request.sku)) ==>
      && r == Err(SkuConflict)
      && store.products == old(store.products) && store.nextProductId == old(store.nextProductId)
    ensures !SkuTaken(old(store.products), Upper(request.sku)) ==>
      && r == Ok(old(store.nextProductId))
      && r.value !in old(store.products)
      && store.products == old(store.products)[r.value := Created(request)]
      && store.nextProductId == old(store.nextProductId) + 1
  {
    var sku := Upper(request.sku);
    if exists id :: id in store.products && store.products[id].sku == sku {
      return Err(SkuConflict);
    }
    r := Ok(store.nextProductId);
    store.AddProduct(Created(request));
  }

  /** Read product `id`. */
  method GetProduct(store: Store, id: nat) returns (r: Result<Product>)
    ensures id in store.products ==> r == Ok(store.products[id])
    ensures id !in store.products ==> r == Err(ProductNotFound(UnknownProduct))
  {
    if id !in store.products {
      return Err(ProductNotFound(UnknownProduct));
    }
    r := Ok(store.products[id]);
  }

  /** Patch product `id`. A supplied SKU whose upper-case form differs from
      the stored one is refused when another product holds it; since SKUs
      are unique, that is exactly when any other product holds it. */
  method UpdateProduct(store: Store, id: nat, patch: ProductUpdate) returns (r: Result<Product>)
    requires store.Valid() && ValidUpdate(patch)
    modifies store
    ensures store.Valid()
    ensures store.items == old(store.items) && store.movements == old(store.movements)
    ensures store.nextProductId == old(store.nextProductId) && store.nextItemId == old(store.nextItemId)
    ensures id !in old(store.products) ==>
      r == Err(ProductNotFound(UnknownProduct)) && store.products == old(store.products)
    ensures id in old(store.products) && patch.sku.Some? && SkuTaken(old(store.products) - {id}, Upper(patch.sku.value)) ==>
      r == Err(SkuConflict) && store.products == old(store.products)
    ensures id in old(store.products) && (patch.sku.None? || !SkuTaken(old(store.products) - {id}, Upper(patch.sku.value))) ==>
      && r == Ok(Patched(old(store.products)[id], patch))
      && store.products == old(store.products)[id := r.value]
  {
    if id !in store.products {
      return Err(ProductNotFound(UnknownProduct));
    }
    var current := store.products[id];
    if patch.sku.Some? {
      var sku := Upper(patch.sku.value);
      if sku != current.sku && exists other :: other in store.products && other != id && store.products[other].sku == sku {
        ghost var other :| other in store.products && other != id && store.products[other].sku == sku;
        assert other in store.products - {id};
        return Err(SkuConflict);
      }
      if sku == current.sku {
        // The SKU is the product's own, so by uniqueness no other product
        // holds it.
        assert !SkuTaken(store.products - {id}, sku);
      }
    }
    var updated := Patched(current, patch);
    store.ReplaceProduct(id, updated);
    r := Ok(updated);
  }

  /** Delete product `id` together with its stock records and movements. */
  method DeleteProduct(store: Store, id: nat) returns (r: Result<()>)
    requires store.Valid()
    modifies store
    ensures store.Valid()
    ensures store.nextProductId == old(store.nextProductId) && store.nextItemId == old(store.nextItemId)
    ensures id !in old(store.products) ==>
      && r == Err(ProductNotFound(UnknownProduct))
      && store.products == old(store.products)
      && store.items == old(store.items) && store.movements == old(store.movements)
    ensures id in old(store.products) ==>
      && r == Ok(())
      && store.products == old(store.products) - {id}
      && store.items == DropProductItems(old(store.items), id)
      && store.movements == DropProductMovements(old(store.movements), id)
      && (forall x :: x in store.items <==> x in old(store.items) && x.productId != id)
      && (forall m :: m in store.movements <==> m in old(store.movements) && m.productId != id)
  {
    if id !in store.products {
      return Err(ProductNotFound(UnknownProduct));
    }
    DropProductItemsMembers(store.items, id);
    DropProductMovementsMembers(store.movements, id);
    store.RemoveProduct(id);
    r := Ok(());
  }

  /** Deleting a product leaves it no stock and leaves every other
      product's stock as it was. */
  lemma {:induction false} DeleteProductStock(items: seq<Item>, id: nat, productId: nat)
    ensures ProductStock(DropProductItems(items, id), productId)
            == if productId == id then 0 else ProductStock(items, productId)
  {
    if items != [] {
      DeleteProductStock(items[1..], id, productId);
      var rest := DropProductItems(items[1..], id);
      if items[0].productId != id {
        assert ([items[0]] + rest)[1..] == rest;
      }
    }
  }
}
