# Warehouse inventory ledger, modelled in Dafny

The system is a warehouse inventory API. It keeps three tables:

- products, each with a unique upper-case SKU and a positive price;
- stock records ("warehouse items"), each holding one product's quantity and safety stock at one location;
- an append-only log of IN and OUT movements, each linked to the record it changed.

Stock enters through stock-in. Stock-in adds to the record at the requested location, or opens one there with a safety stock of 5. Stock-out either takes exactly the requested quantity from the product's record at one named location (refusing when that record holds less), or walks the product's records holding stock in id order. On that walk it takes `min(stock, remaining)` from each until the request is met, and logs one OUT movement per record touched. Two read-only queries aggregate the tables:

- the inventory overview: per-product totals with their location breakdown, filtered and paginated;
- the low-stock alerts: the products whose total quantity is strictly below their total safety stock.

The catalog endpoints create, read, patch and delete products. A product's SKU is upper-cased on write and must not be taken by another product. Deleting a product cascades to its records and movements. The record endpoints can change a record's location and safety stock, but never its quantity, and can delete a record together with its movements.

The model is organised as follows:

- `models.dfy`: the record types and the error cases.
- `text.dfy`: ASCII upper-casing and case-insensitive substring search.
- `ledger.dfy`: the ledger invariants and the lookups. The central invariant is conservation: replaying a record's movements from zero gives its quantity.
- `allocation.dfy`: the greedy stock-out walk as a function, and its properties.
- `preservation.dfy`: one lemma per kind of state change, showing that each keeps the invariants, and conservation per product.
- `aggregation.dfy`: the overview and the low-stock alerts.
- `store.dfy`: the database as a class `Store`, with one method per kind of state change. `Store.Valid()` is the ledger invariant. Every method keeps it and states the new tables exactly.
- `inventory_service.dfy`: stock-in, stock-out (including its deduction loop), the overview and the alerts.
- `product_endpoints.dfy` and `item_endpoints.dfy`: the product and record endpoints.

Each mutating operation works as one transaction. It either reports an error and leaves every table as it was, or it installs the new tables.

Where the system's specification and its code disagree, the model follows the code:

- The specification calls movements never deleted. In the code, deleting a product or a record cascades to its movements (`app/models.py`, lines 31-39 and 56-59).
- The specification asks for at most one record per (product, location). The code neither enforces nor relies on this. A record's location can be patched onto a location where the product already has a record. Lookups therefore take the first matching record in id order.
- The specification says records change only through stock-in and stock-out. The record patch endpoint also changes a record's location and safety stock, though never its quantity.

## Model

| member | source | states |
|---|---|---|
| Ledger.FindRecord | app/services/inventory_service.py:33-38 | the (product, location) lookup: a found position holds a matching record and no earlier record matches; nothing is found iff no record matches |
| Ledger.FindById | app/api/v1/endpoints/warehouse_items.py:53-55 | the primary-key lookup: a found position carries the id; nothing is found iff no record has it |
| Ledger.NetAppend | app/models.py:61-75 | replaying two stretches of the movement log one after the other adds up their nets |
| Ledger.NetUnlinked | app/models.py:61-75 | a record that no movement refers to has a replayed net of zero |
| Ledger.Available | app/services/inventory_service.py:134-140 | every stock-out candidate is a record of the product holding stock, and there are no more candidates than records |
| Ledger.AvailableMembers | app/services/inventory_service.py:134-140 | the stock-out candidates are exactly the product's records with quantity > 0 |
| Ledger.AvailableSumNonNegative | app/services/inventory_service.py:145 | the total available stock is never negative |
| Ledger.DropProductItemsMembers | app/models.py:31-34 | the product cascade keeps exactly the other products' records |
| Ledger.DropProductItemsIncreasing | app/models.py:31-34 | the records surviving the cascade stay in id order |
| Ledger.DropProductItems | app/models.py:31-34 | no record of the deleted product survives the cascade, and the cascade adds nothing |
| Ledger.DropProductMovementsMembers | app/models.py:36-39 | the product cascade keeps exactly the other products' movements |
| Ledger.DropProductMovements | app/models.py:36-39 | no movement of the deleted product survives the cascade, and the cascade adds nothing |
| Ledger.DropItemMovementsMembers | app/models.py:56-59 | the record cascade keeps exactly the movements of other records |
| Ledger.DropItemMovements | app/models.py:56-59 | no movement of the deleted record survives the cascade, and the cascade adds nothing |
| Ledger.NetDropProduct | app/models.py:36-39 | a record with no movement of the deleted product keeps its replayed net |
| Ledger.NetDropItem | app/models.py:56-59 | every other record keeps its replayed net when one record's movements go |
| Text.Upper | app/api/v1/endpoints/products.py:25-27 | an upper-cased SKU is upper case and keeps its length |
| Text.UpperFixesUpper | app/api/v1/endpoints/products.py:60 | upper-casing a string with no lower-case letter gives it back unchanged |
| Text.CaseVariantsUpperAlike | app/api/v1/endpoints/products.py:21 | two spellings that differ only in the case of their letters have the same upper-case form, so they meet the same SKU check |
| Text.ResubmittedSkuMatches | app/api/v1/endpoints/products.py:60 | a stored (upper-case) SKU equals the upper-cased form of every re-submission of it in any letter case, so a product's own SKU never counts as a conflict |
| Allocation.TakenAt | app/services/inventory_service.py:151-155 | the amount taken at a record never exceeds what is still needed, and is positive iff the record is the product's, holds stock, and something is still needed |
| Allocation.LeftAt | app/services/inventory_service.py:155-156 | a record the walk passes keeps all its fields except its quantity, which never grows |
| Allocation.WrittenAt | app/services/inventory_service.py:162-170 | a record gets a movement iff something was taken from it |
| Allocation.WalkAfter | app/services/inventory_service.py:149-170 | after i passes of the loop, i records have been handled and the remainder never exceeds the request |
| Allocation.TouchedCount | app/services/inventory_service.py:156-170 | the list of updated records and the movements written have the same length |
| Allocation.TouchedAt | app/services/inventory_service.py:159-165 | the j-th updated record is one already handled, and the j-th movement is linked to it |
| Allocation.WalkedSplits | app/services/inventory_service.py:149-160 | the records handled so far, followed by the walk over the rest with what remains, give the allocated table |
| Allocation.WrittenSplits | app/services/inventory_service.py:162-170 | the movements written so far, followed by those of the walk over the rest, give all of the allocation's movements |
| Allocation.WalkFinished | app/services/inventory_service.py:149-174 | when the loop stops (all records handled, or nothing left to take), its state is the allocated table, the records not reached are unchanged, its movements are the allocation's, and the first updated record is the one the first movement is linked to |
| Allocation.AllocationMovements | app/services/inventory_service.py:162-170 | the walk writes at most one movement per record of the table |
| Allocation.Allocated | app/services/inventory_service.py:149-160 | the greedy walk keeps every record of the table |
| Allocation.AllocatedAt | app/services/inventory_service.py:150-160 | each record keeps all fields but its quantity, which only drops and never below zero; other products' records and empty records are untouched |
| Allocation.AllocatedTotal | app/services/inventory_service.py:145-160 | the walk takes min(request, available) in total, which is exactly the request once the sufficiency check has passed |
| Allocation.MovedTotal | app/services/inventory_service.py:162-170 | the OUT movements add up to the same total |
| Allocation.MovementsShape | app/services/inventory_service.py:163-169 | every movement written is an OUT movement of the product, for a positive amount, carrying the request's remarks |
| Allocation.MovementsFollowRecords | app/services/inventory_service.py:163-166 | each movement is linked to a record of the product that held stock |
| Allocation.MovementsInRecordOrder | app/services/inventory_service.py:134-138 | movements come in ascending record-id order, so no record gets two |
| Allocation.AllocationNet | app/services/inventory_service.py:150-170 | per record, the movements written replay exactly the drop in its quantity (location-exact audit trail) |
| Allocation.AllocationGreedy | app/services/inventory_service.py:150-160 | a record holding stock that comes before a record the walk took from has been emptied: every record taken from except the last ends at zero |
| Allocation.AllocationStartsAtFirstAvailable | app/services/inventory_service.py:134-140 | with stock available, the first movement is linked to the first available record in id order |
| Allocation.AllocationKeepsLedger | app/services/inventory_service.py:149-170 | applying the allocation and appending its movements keeps every ledger invariant |
| Allocation.SplitAcrossTwoRecords | app/services/inventory_service.py:149-170 | two records of 5 and a request of 7: the first is emptied, the second gives 2, and the movements are (5, 2) in that order |
| Preservation.AdjustKeepsLedger | app/services/inventory_service.py:41-46 | moving one record's quantity by a logged movement, staying non-negative, keeps the ledger consistent |
| Preservation.AddRecordKeepsLedger | app/services/inventory_service.py:47-66 | opening a record under the next id and logging its IN movement keeps the ledger consistent |
| Preservation.PatchRecordKeepsLedger | app/api/v1/endpoints/warehouse_items.py:60-63 | changing a record's location and safety stock keeps the ledger consistent |
| Preservation.RemoveRecordKeepsLedger | app/api/v1/endpoints/warehouse_items.py:70-78 | deleting a record together with its movements keeps the ledger consistent |
| Preservation.AddProductKeepsLedger | app/api/v1/endpoints/products.py:20-28 | inserting a product with a positive price and a free upper-case SKU under the next id keeps the catalog consistent |
| Preservation.ReplaceProductKeepsLedger | app/api/v1/endpoints/products.py:55-72 | overwriting a product with one whose upper-case SKU no other product has keeps SKUs unique |
| Preservation.RemoveProductKeepsLedger | app/api/v1/endpoints/products.py:80-85 | deleting a product with its records and movements keeps the ledger consistent |
| Preservation.ProductStockSnoc | app/services/inventory_service.py:254 | a product's stock is the sum over its records: one more record adds its quantity to its own product's stock and to no other |
| Preservation.RecordNetsIsProductNet | app/models.py:61-75 | when every movement is linked to a record of its product, a product's IN minus OUT is the sum of its records' replayed nets |
| Preservation.ProductConservation | app/models.py:61-75 | in a consistent ledger, a product's IN minus OUT equals the sum of its records' quantities |
| Aggregation.JoinRows | app/services/inventory_service.py:202 | every joined row is a stored record together with its own product |
| Aggregation.JoinRowsExact | app/services/inventory_service.py:202 | when every record's product is in the catalog, the join has exactly one row per record, in table order, pairing it with its product |
| Aggregation.JoinRowsComplete | app/services/inventory_service.py:202 | every record whose product exists appears in the join with that product |
| Aggregation.FilterRows | app/services/inventory_service.py:205-208 | every row kept matches the name filter (case-insensitive substring) and the upper-cased SKU filter, and there are never more rows than given |
| Aggregation.FilterRowsMembers | app/services/inventory_service.py:205-208 | the filter keeps exactly the rows that match both filters |
| Aggregation.IndexOfProduct | app/services/inventory_service.py:216 | the grouping map lookup: a found group carries the product; nothing is found iff the product has no group |
| Aggregation.AddRowKeepsGrouping | app/services/inventory_service.py:215-228 | folding one more row into a correct grouping gives a correct grouping |
| Aggregation.Group | app/services/inventory_service.py:214-228 | the grouping never has more groups than rows |
| Aggregation.GroupIsGrouping | app/services/inventory_service.py:214-228 | the grouping has one group per product met, with exactly that product's locations and their sum |
| Aggregation.PySlice | app/services/inventory_service.py:231 | Python slicing: with non-negative bounds, the stretch between them cut at the end |
| Aggregation.Overview | app/services/inventory_service.py:205-231 | with non-negative bounds a page never holds more than `limit` products |
| Aggregation.GroupEntries | app/services/inventory_service.py:205-228 | every group of the filtered rows is a correct overview entry, named after one of its product's rows and under the SKU filter carrying the upper-cased SKU |
| Aggregation.OverviewEntries | app/services/inventory_service.py:205-231 | with non-negative bounds the page is the window `[offset, offset + limit)` of the unpaged listing, holding at most `limit` distinct products, each with exactly the locations of its matching rows and their sum, and under the SKU filter the upper-cased SKU |
| Aggregation.OverviewCoversMatches | app/services/inventory_service.py:205-231 | without a page cut, the overview lists a product iff one of its rows matches both filters |
| Aggregation.FilterKeepsLocations | app/services/inventory_service.py:205-208 | when all of a product's rows match, the filter keeps every one of its locations |
| Aggregation.EntryCoversProduct | app/services/inventory_service.py:205-228 | the filters look only at the product, so over a join an overview entry lists every location of its product and the product's whole quantity |
| Aggregation.AlertsForComplete | app/services/inventory_service.py:256-258 | every grouped product whose quantity is strictly below its safety stock is alerted |
| Aggregation.AlertsForSound | app/services/inventory_service.py:256-258 | every alerted product is a grouped product strictly below its safety stock |
| Aggregation.GroupAlert | app/services/inventory_service.py:256-281 | a group raises at most one alert, and one exactly when its total is strictly below the product's total safety stock; that alert carries the group's product, name, SKU and total |
| Aggregation.AlertsFor | app/services/inventory_service.py:262-281 | at most one alert per group |
| Aggregation.LowStockAlerts | app/services/inventory_service.py:250-282 | never more alerts than rows |
| Aggregation.AlertsForFromGroups | app/services/inventory_service.py:262-281 | every alert is raised by one of the groups and carries that group's product, name and SKU |
| Aggregation.AlertsForDistinct | app/services/inventory_service.py:256-263 | groups of distinct products raise alerts of distinct products |
| Aggregation.LowStockAlertsNamed | app/services/inventory_service.py:250-281 | there is one alert per product, and each carries the name and SKU of one of that product's rows |
| Aggregation.AlertsForIff | app/services/inventory_service.py:250-258 | both directions together |
| Aggregation.AlertsForEntries | app/services/inventory_service.py:262-281 | each alert carries the product's total quantity, its total safety stock and every one of its locations |
| Aggregation.LowStockIff | app/services/inventory_service.py:250-282 | a product is alerted iff it has a record and its total quantity is strictly below its total safety stock (equality is not flagged), with exact totals and breakdown |
| Tables.Store.Apply | app/services/inventory_service.py:43-46 | the record moves by the movement's signed amount, the movement is appended, and the invariant holds |
| Tables.Store.Open | app/services/inventory_service.py:47-66 | a record with the request quantity and safety stock 5 is appended under the next id, with its IN movement, and the invariant holds |
| Tables.Store.Allocate | app/services/inventory_service.py:150-170 | the allocated table and its movements are installed, and the invariant holds |
| Tables.Store.AddProduct | app/api/v1/endpoints/products.py:27-28 | the product is inserted under the next product id, and the invariant holds |
| Tables.Store.ReplaceProduct | app/api/v1/endpoints/products.py:68-72 | only that product's columns change, and the invariant holds |
| Tables.Store.RemoveProduct | app/api/v1/endpoints/products.py:85 | the product, its records and its movements go, and the invariant holds |
| Tables.Store.PatchRecord | app/api/v1/endpoints/warehouse_items.py:60-65 | only that record's location and safety stock change, and the invariant holds |
| Tables.Store.RemoveRecord | app/api/v1/endpoints/warehouse_items.py:78 | the record and its movements go, and the invariant holds |
| InventoryService.StockIn | app/services/inventory_service.py:8-71 | unknown product: error, nothing changes; existing record at the location: exactly `quantity` added to it, no record created; otherwise one new record with the quantity and safety stock 5; either way exactly one IN movement of `quantity` linked to the returned record |
| InventoryService.StockOut | app/services/inventory_service.py:73-179 | the error cases (unknown product, no record at the location, too little at the location, no stock anywhere, too little in total) change nothing; a targeted stock-out takes exactly `quantity` from the record with one OUT movement; an untargeted one installs the greedy allocation and its movements and returns the first available record |
| InventoryService.Deduct | app/services/inventory_service.py:149-174 | the deduction loop computes exactly the greedy allocation, its movements in order, and the position of the first record updated, which the first movement is linked to |
| InventoryService.InventoryOverview | app/services/inventory_service.py:181-233 | with non-negative bounds (by default offset 0 and limit 100, unfiltered) the page is the window `[offset, offset + limit)` of the unpaged listing, with at most `limit` distinct products, each a correct entry for the filtered rows carrying the product's catalog name and SKU; in a consistent store each entry lists every record of its product and the product's whole stock |
| InventoryService.OverviewOfTable | app/services/inventory_service.py:202-231 | each entry of a page carries its product's catalog name and SKU; when every record's product is in the catalog, it also lists every location of its product and the sum of its records' quantities |
| InventoryService.JoinedStock | app/services/inventory_service.py:250-257 | when every record's product is in the catalog, the quantity the join shows for a product is the sum of its records' quantities |
| InventoryService.LowStock | app/services/inventory_service.py:235-282 | one alert per product, carrying the product's catalog name and SKU, its exact totals and its location breakdown; in a consistent store a product is alerted iff it has a record and its stock is strictly below its records' total safety stock, and the alert shows that stock |
| InventoryService.LowStockOfTable | app/services/inventory_service.py:250-282 | the alerts stated over the records: alerted iff the product has a record and the sum of its records' quantities is strictly below their safety stock total, each alert showing that sum |
| InventoryService.LowStockNamed | app/services/inventory_service.py:250-281 | no product has two alerts, and each alert carries its product's name and SKU as stored in the catalog |
| ProductEndpoints.Created | app/api/v1/endpoints/products.py:25-27 | the stored product has the request's name, description and price, and the request's SKU upper-cased (upper case, same length); the price is positive |
| ProductEndpoints.Patched | app/api/v1/endpoints/products.py:65-69 | each field the patch omits keeps its value and each supplied field takes the supplied value, a supplied SKU upper-cased; the catalog constraints are kept |
| ProductEndpoints.PatchIdempotent | app/api/v1/endpoints/products.py:65-69 | applying a patch twice equals applying it once |
| ProductEndpoints.CreateProduct | app/api/v1/endpoints/products.py:17-31 | conflict, adding nothing, iff some product has the upper-cased SKU; otherwise inserted under a fresh id with that SKU |
| ProductEndpoints.GetProduct | app/api/v1/endpoints/products.py:44-50 | the stored product, or not-found |
| ProductEndpoints.UpdateProduct | app/api/v1/endpoints/products.py:52-75 | unknown id: not-found; conflict, changing nothing, iff a supplied SKU's upper-case form is held by a different product (a product's own SKU in any case is allowed); otherwise only that product changes, to the patched one |
| ProductEndpoints.DeleteProduct | app/api/v1/endpoints/products.py:77-85 | unknown id: not-found, nothing changes; otherwise the product goes, and the records and movements are exactly the previous ones minus the product's, in their order |
| ProductEndpoints.DeleteProductStock | app/models.py:31-34 | after the cascade the deleted product has no stock, and every other product's stock is unchanged |
| ItemEndpoints.PatchedItem | app/api/v1/endpoints/warehouse_items.py:60-62 | the patched record keeps its id and product; each field the patch supplies takes the supplied value and each omitted one keeps its own; the quantity is kept iff the patch supplies none or an equal one; the column constraints are kept |
| ItemEndpoints.UpdateItem | app/api/v1/endpoints/warehouse_items.py:49-68 | unknown id: not-found; a different quantity: rejected, nothing changes; otherwise only that record changes, to the patched one, and the ledger stays consistent |
| ItemEndpoints.DeleteItem | app/api/v1/endpoints/warehouse_items.py:70-78 | unknown id: not-found, nothing changes; otherwise the record goes, and the movements are exactly the previous ones minus the record's, in their order |
| ItemEndpoints.PatchKeepsStock | app/api/v1/endpoints/warehouse_items.py:57-63 | a patch that passes the quantity guard leaves every product's stock unchanged |
| ItemEndpoints.DeleteItemStock | app/api/v1/endpoints/warehouse_items.py:70-78 | deleting a record lowers its product's stock by exactly its quantity and leaves every other product's stock unchanged |

## Left out

- Database sessions, `flush` and `refresh`: each operation is modelled as one transaction over the `Store` tables.
- Concurrency and isolation are left out: row locking and lost updates are properties of the database, not of this sequential logic.
- Timestamps (`created_at`, `updated_at`, `movement_date`) are omitted; no behaviour depends on them.
- Error message texts: errors are the `Error` datatype, with the three "product not found" causes told apart.
- Prices: `Decimal` prices are whole cents, and only their positivity is kept.
- Request validation: Pydantic's field-length and range rules are `requires` clauses of the endpoints.
- `ilike` is modelled as ASCII case-insensitive substring search. `%` and `_` inside the user's filter text are not treated as wildcards, and database collation and Unicode case mapping are not modelled. `str.upper()` is likewise ASCII only.
- Patch requests model an unset field as `None`. An explicit JSON `null` in a patch (which would write NULL, or fail on `None.upper()` for a SKU) is not modelled.
- Movements always carry a record id. The nullable `warehouse_item_id` column is not modelled, because every movement the code writes sets it.
- Ledger.FindRecord: the SQL `.first()` without ORDER BY may return any matching record. The model takes the lowest id, because (product, location) is not unique in the code.
- Row order: the overview and the alerts visit the join in record-id order. The order a database returns rows in, and so the order of groups on a page, is not otherwise modelled.
- InventoryService.InventoryOverview: for a negative `offset` or `limit` (Python slicing from the end), the contract states nothing. The body still follows Python's slicing rules.
- Ids: product and record ids are natural numbers. The endpoints take `int` ids, and the source answers a negative id with not-found. Calls with negative ids are not modelled.
- HTTP wiring, startup, logging and configuration are outside the model.
- The list and single-record GET endpoints are outside the model; they only read the tables.
- Three wiring faults are outside the model, which follows the evidently intended behaviour: `main.py`'s exception handlers, the endpoint names that shadow the imported service functions, and the missing import of `WarehouseItem` in `app/api/v1/endpoints/warehouse_items.py`.
