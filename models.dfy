/** The record types of the warehouse ledger: products, stock records
    ("warehouse items") and the movement log, with the error cases the
    ledger operations report. */
module Models {

  datatype Option<+T> = None | Some(value: T)

  /** Why a lookup failed. The service raises the same "product not found"
      error for an unknown product id, for a missing record at the requested
      location, and for a product with no stock at any location; only the
      detail text differs. */
  datatype NotFound = UnknownProduct | NoRecordAtLocation | NoStockAtAnyLocation

  datatype Error =
    | ProductNotFound(why: NotFound)   // ProductNotFoundException
    | InsufficientStock                 // InsufficientStockException
    | SkuConflict                       // HTTP 409 on a taken SKU
    | ItemNotFound                      // HTTP 404 on an unknown stock record id
    | QuantityChangeRejected            // HTTP 400: quantity moves only through stock-in/out

  datatype Result<+T> = Ok(value: T) | Err(error: Error)

  /** The direction of a movement: exactly two values. */
  datatype MovementType = IN | OUT

  /** A catalog product; its id is the key it is stored under. The price is
      the Numeric(10,2) column as a whole number of cents. */
  datatype Product = Product(name: string, description: Option<string>, sku: string, priceCents: int)

  /** The stock of one product at one location. */
  datatype Item = Item(id: nat, productId: nat, location: string, quantity: int, safetyStock: int)

  /** One audit-log entry: a signed change of one record's quantity. */
  datatype Movement = Movement(productId: nat, itemId: nat, kind: MovementType, quantity: int, remarks: Option<string>)

  /** The safety stock a record gets when stock-in creates it. */
  const DEFAULT_SAFETY_STOCK: int := 5

  /** The length rule a request's location must satisfy. */
  predicate ValidLocation(location: string)
  {
    2 <= |location| <= 100
  }

  /** Python's `min` on two integers. */
  function Min(a: int, b: int): int
  {
    if a < b then a else b
  }
}
