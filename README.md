# Order service — a Dafny model

This project models the business logic of a food-ordering service's order
microservice. There are two generations of it:

- `server/order/orders_2.py`: the current service. It prices an order on the
  server from the restaurant's item prices, a delivery fee by distance and an
  optional discount code. It assigns the first available courier, and its
  status update is validated.
- `FastAPIProject/orders_2.py`: the earlier service. It takes the total price
  and the delivery estimate from the client, writes any status unvalidated,
  and lets workers bulk-insert discount codes.
- `FastAPIProject/orders.py`: the cart and discount-code handlers of the earlier
  service. A cart is an order row with status `"cart"`.

The database is the class `Schema.Db`. Its map-valued fields are the tables:
orders, discounts, item prices keyed by (restaurant, item), restaurant courier
rosters, courier profiles, and customers with their integer `worker`/`admin`
flags. Each HTTP handler is a method that takes the `Db` and names the tables
it may write with a field frame (`modifies db`orders`).

Most handlers are proved against a pure decision function. That function
returns either the new table or the error the handler raises.
`Errors.Commits` ties the two together: the handler returns that error and
leaves the table as it was, or it succeeds and the table becomes the decided
one. The handlers stated this way are both `CreateOrder`s, both
`UpdateOrderStatus`es and `Carts.UpdateOrderStatus`, `Lifecycle.UpdateOrder`,
`Lifecycle.CancelOrder`, `LegacyOrders.AddDiscounts`,
`DiscountCodes.CreateDiscount`, `Carts.UpdateCart` and
`Carts.RemoveFromCart`. For the handlers that first look a row up,
the decision function also takes the lookup's answer, and the handler's
contract says that some valid answer gives its result.
`Carts.GetCart` returns exactly `Carts.CartQuery` of such an answer.
`DiscountCodes.ApplyDiscount` commits `DiscountCodes.ApplyToCart` once the
code and the cart are found, and states its other outcomes directly.
`Carts.AddToCart`, `DiscountCodes.PurgeExpired` and
`DiscountCodes.DeleteDiscountCode` state their new table directly in their
own `ensures`. The lemmas about the decision functions carry the properties:
window boundaries, "nothing else changes", round trips, idempotence and
one-shot behaviour.

An error records both the kind raised and the HTTP status the client finally
receives. Handlers that wrap their body in a catch-all turn their own 403/404
into 500 (`Errors.Reraised`).

Inputs of each handler:

- the caller's identity;
- the clock reading `now`, in seconds;
- fresh identifiers;
- for order creation, the geocoder's outcome and the distance in kilometres.

Money and distance are exact reals.

Module layout:

| file | module | source |
|---|---|---|
| errors.dfy | `Errors` | error kinds and statuses, `Result`, `Commits` |
| schema.dfy | `Schema` | rows, constants, `Db`, the single-insert step |
| access.dfy | `Access` | `verify_worker` and the admin check |
| pricing.dfy | `Pricing` | fee, range check, subtotal loop, percentage |
| couriers.dfy | `Couriers` | roster scan with early exit, courier profile |
| lookups.dfy | `Lookups` | discount-by-code and cart-by-customer lookups |
| lifecycle.dfy | `Lifecycle` | edit and cancel, shared by both services |
| server_orders.dfy | `ServerOrders` | `server/order/orders_2.py` create and status |
| legacy_orders.dfy | `LegacyOrders` | `FastAPIProject/orders_2.py` create, status, bulk discounts |
| carts.dfy | `Carts` | `FastAPIProject/orders.py` cart handlers and status overwrite |
| discount_codes.dfy | `DiscountCodes` | `FastAPIProject/orders.py` discount-code handlers |

## Model

| member | source | states |
|---|---|---|
| Access.VerifyWorker | server/order/orders_2.py:92-102 | The caller passes exactly when their customer row exists with worker flag 1. Otherwise it is refused with 403. FastAPIProject/orders_2.py:71-81 is the same code. |
| Pricing.DeliveryFee | server/order/orders_2.py:165-174 | A distance is accepted exactly when it is at most 20 km, the limit included. The fee is then 2.5 × distance. Above the limit the error is 400. |
| Pricing.ApplyPercentage | server/order/orders_2.py:208-209 | Taking p percent off gives amount × (1 − p/100). For 0 ≤ p ≤ 100 the result lies between 0 and the amount, and 0% changes nothing. |
| Pricing.SubtotalRemove | server/order/orders_2.py:188-196 | The subtotal does not depend on the order in which the lines are summed: any line can come first. |
| Pricing.ComputeSubtotal | server/order/orders_2.py:186-196 | The accumulation loop reports a missing item exactly when some requested item has no price row for the restaurant. Otherwise the total is the sum of price × quantity over all lines. |
| Couriers.FirstAssigned | server/order/orders_2.py:227-239 | The result is absent exactly when no roster entry is tagged "Assigned". Otherwise it is the courier of the first such entry: every earlier entry has another tag. |
| Couriers.PickCourier | server/order/orders_2.py:228-233 | The scan loop that stops at the first "Assigned" entry returns exactly `FirstAssigned` of the roster. FastAPIProject/orders_2.py:112-117 is the same loop. |
| Couriers.CourierDetails | server/order/orders_2.py:241-250 | With a profile the courier columns hold exactly the id and that profile's name and phone. Without one all three are null and creation does not fail. |
| Lookups.FindDiscount | server/order/orders_2.py:199-205 | The result is none exactly when no discount row carries the code. Otherwise it is a row carrying that code. |
| Lookups.FindCart | FastAPIProject/orders.py:96-98 | The result is none exactly when the customer has no order row with status "cart". Otherwise it is one of that customer's carts. |
| Schema.Insert | server/order/orders_2.py:254-279 | The single write of creation: a planned row is stored under the new id and every other row is unchanged. A refused plan leaves the error as it is. A fresh id grows the table by one. |
| ServerOrders.SomeLookup | server/order/orders_2.py:199-203 | For every table and request there is a possible answer of the discount lookup. No code means nothing is looked up. |
| ServerOrders.PlaceOrder | server/order/orders_2.py:132-279 | Creation succeeds exactly when every check passes and the roster has an "Assigned" entry. Each check has its own error, given that the earlier checks passed: address 400, restaurant 404, geocoder 500/504/500, distance 400, unpriced item 404, unknown code 404, expired code 400, empty roster 404, no assigned courier 404. A created order is Pending, with ETA now + 90 min, the request's restaurant, products, payment and delivery method and address, the request's code as given in its discount column, and total (Σ price × qty) × (1 − pct/100) + 2.5 × distance. Its courier is the first "Assigned" entry of the roster. |
| ServerOrders.CreateOrder | server/order/orders_2.py:126-280 | The handler commits exactly `Insert` of `PlaceOrder` for some possible discount lookup. Every refusal leaves the orders table unchanged, and no other table is written. On success it returns the new id. |
| ServerOrders.DistanceLimit | server/order/orders_2.py:165-170 | Once address, restaurant and geocoding pass, creation fails as out of range exactly when the distance is above 20 km. |
| ServerOrders.DiscountExpiryBoundary | server/order/orders_2.py:206-207 | A code expiring exactly now is not refused as expired. One that expired a second earlier is. |
| ServerOrders.SetStatus | server/order/orders_2.py:353-380 | A status outside {Pending, In Progress, Delivered, Canceled} is refused (400). "Delivered" needs an existing row (404) that is not yet delivered (400), and stamps the delivery time. Other statuses overwrite the status with no check. Nothing else changes. |
| ServerOrders.StatusUpdate | server/order/orders_2.py:347-353 | Non-workers are refused with 403 before the status is checked. Workers get exactly `SetStatus`. |
| ServerOrders.UpdateOrderStatus | server/order/orders_2.py:347-381 | The handler's two writes for "Delivered" (delivery time, then status) and its single write otherwise commit exactly `StatusUpdate`. |
| ServerOrders.DeliveredOnce | server/order/orders_2.py:358-374 | Marking an undelivered order delivered succeeds and stamps `now`. A second attempt is refused as already delivered, whatever its clock. |
| Lifecycle.Edited | server/order/orders_2.py:305-313 | Each supplied, non-empty field among products, delivery method and address is replaced. Every other column, the total price included, is unchanged. |
| Lifecycle.CollectUpdates | server/order/orders_2.py:302-316 | The SET-clause list built step by step is empty exactly when nothing was supplied. Its effect on any row is exactly `Edited`. FastAPIProject/orders_2.py:183-197 builds the same list. |
| Lifecycle.ApplyUpdatesMatchesEdit | server/order/orders_2.py:302-320 | Applying the handler's clauses in order gives the edited row. |
| Lifecycle.ApplyUpdatesAppend | server/order/orders_2.py:319-320 | Applying two clause lists one after the other is applying their concatenation. |
| Lifecycle.Edit | server/order/orders_2.py:289-320 | An edit succeeds exactly when the caller owns the order, now ≤ created + 30 min and some field is supplied. The errors are 404, then 400 for the window, then 400 for no fields. Only that order changes, to `Edited`. FastAPIProject/orders_2.py:170-201 does the same, but its ownership select lacks ALLOW FILTERING (see Left out). |
| Lifecycle.UpdateOrder | server/order/orders_2.py:283-321 | The edit handler commits exactly `Edit`. |
| Lifecycle.EditWindowBoundary | server/order/orders_2.py:297-300 | An edit exactly 30 minutes after creation is accepted. One second later it is refused. |
| Lifecycle.Cancel | server/order/orders_2.py:329-342 | A cancel succeeds exactly when the caller owns the order and now ≤ ETA − 30 min. Then exactly that row is removed and the others are kept. Not owned gives 404, too late gives 400, and a row without an ETA fails with 500. FastAPIProject/orders_2.py:210-223 does the same, but its ownership select lacks ALLOW FILTERING (see Left out). |
| Lifecycle.CancelOrder | server/order/orders_2.py:323-343 | The cancel handler commits exactly `Cancel`. |
| Lifecycle.CancelWindowBoundary | server/order/orders_2.py:337-340 | A cancel exactly 30 minutes before the estimate is accepted. One second later it is refused. |
| LegacyOrders.PlaceLegacyOrder | FastAPIProject/orders_2.py:89-161 | Delivery without an address gives 400. A missing restaurant or empty roster gives 404. A roster with no "Assigned" entry gives 404. Creation succeeds exactly when an "Assigned" courier exists. The row carries the client's total price, discount and estimate verbatim, the request's restaurant, products, payment and delivery method and address, status Pending, no delivery time, and the first "Assigned" courier's details. |
| LegacyOrders.CreateOrder | FastAPIProject/orders_2.py:83-162 | The handler commits exactly `Insert` of `PlaceLegacyOrder`: nothing is written before the insert. |
| LegacyOrders.OverwriteStatus | FastAPIProject/orders_2.py:226-236 | After the worker check (403) any status string is written. Only that row's status changes, and an absent row leaves the table unchanged. |
| LegacyOrders.UpdateOrderStatus | FastAPIProject/orders_2.py:232-235 | The handler commits exactly `OverwriteStatus`. |
| LegacyOrders.AddAll | FastAPIProject/orders_2.py:240-245 | A bulk insert is refused with 403 exactly when the caller is not a worker. |
| LegacyOrders.AddDiscounts | FastAPIProject/orders_2.py:240-261 | The insert loop commits exactly `AddAll`: after the worker check, one row per entry in order. |
| LegacyOrders.InsertedRows | FastAPIProject/orders_2.py:246-260 | With distinct fresh ids, every entry is stored under its own id with its own expiry, duplicate codes included. Every earlier row is kept, and the table grows by the number of entries. |
| LegacyOrders.InsertedAt | FastAPIProject/orders_2.py:246-260 | Entry i ends up stored under id i with its own code, percentage and expiry, when no later entry reuses that id. |
| LegacyOrders.InsertedKeeps | FastAPIProject/orders_2.py:246-260 | A row whose id no entry uses survives the bulk insert unchanged. |
| LegacyOrders.InsertedSize | FastAPIProject/orders_2.py:246-260 | Distinct fresh ids grow the discounts table by exactly one row per entry. |
| LegacyOrders.InsertedKeys | FastAPIProject/orders_2.py:246-247 | After the loop, the table's ids are the old ids plus the ids used. |
| Carts.AddLine | FastAPIProject/orders.py:106-113 | Adding to a cart merges into an existing line (old + q) or creates the line. All other lines are unchanged. |
| Carts.SetLine | FastAPIProject/orders.py:186-190 | A quantity ≤ 0 removes the line (no-op when absent). Otherwise the line becomes exactly that quantity. Other lines are unchanged. |
| Carts.RemoveLine | FastAPIProject/orders.py:219-220 | Only the given line goes. An absent line is a no-op. |
| Carts.AddLineMerges | FastAPIProject/orders.py:110-111 | Two additions of one item equal one addition of the summed quantity. |
| Carts.RemoveUndoesAdd | FastAPIProject/orders.py:187-188 | Removing a line undoes adding it to a cart without it, and setting a quantity ≤ 0 is removing. |
| Carts.LineEditsIdempotent | FastAPIProject/orders.py:216-223 | Removing twice equals removing once, and setting twice equals setting once. |
| Carts.EditsKeepLinesPositive | FastAPIProject/orders.py:87-92 | With the add handler's quantity check, every cart edit keeps all quantities positive. |
| Carts.NewCart | FastAPIProject/orders.py:124-150 | A new cart has products exactly {item: q}, status "cart", total 0 and discount 0, the placeholder "none" as payment method, delivery method and address, and no restaurant, estimate, delivery time or courier. |
| Carts.AddToCart | FastAPIProject/orders.py:77-166 | A quantity ≤ 0 is refused with 400 before the store is touched. An existing cart gets `AddLine` and nothing else changes. Without a cart, `NewCart` is inserted under the fresh id. |
| Carts.SetCartLine | FastAPIProject/orders.py:178-196 | Without a cart the set handler fails with a 404 emitted as 500. A cart whose products map is empty reads back as null and fails with 500. Otherwise that cart gets `SetLine` and nothing else changes. |
| Carts.RemoveCartLine | FastAPIProject/orders.py:211-224 | Without a cart the remove handler fails with a 404 emitted as 500. A cart whose products map is empty reads back as null and fails with 500. Otherwise that cart gets `RemoveLine` and nothing else changes. |
| Carts.EmptiedCartStuck | FastAPIProject/orders.py:186-196 | Once a cart's last line is removed by the set or the remove handler, every later set or remove on it fails with the null-read 500. |
| Carts.UpdateCart | FastAPIProject/orders.py:170-199 | For some valid answer of the cart lookup, the handler commits exactly `SetCartLine`. Without a cart it fails with a 404 emitted as 500 and writes nothing. |
| Carts.RemoveFromCart | FastAPIProject/orders.py:202-227 | For some valid answer of the cart lookup, the handler commits exactly `RemoveCartLine`. Without a cart it fails with a 404 emitted as 500 and writes nothing. |
| Carts.CartQuery | FastAPIProject/orders.py:241-254 | No cart gives the empty-cart reply. A cart with an empty products map reads back as null, fails the response validation and gives 500. Otherwise the reply holds exactly that row's id, customer, products, total, status and creation time. |
| Carts.GetCart | FastAPIProject/orders.py:230-254 | The reply is `CartQuery` of some valid answer of the cart lookup. It is the empty-cart reply exactly when the caller has no cart, and a returned cart is the caller's, has status "cart" and holds at least one line. |
| Carts.OverwriteStatus | FastAPIProject/orders.py:321-338 | A non-worker is refused and a missing order is not found, both emitted as 500. Otherwise any status is written on that row only. |
| Carts.UpdateOrderStatus | FastAPIProject/orders.py:313-338 | The handler commits exactly `OverwriteStatus`. |
| DiscountCodes.Unexpired | FastAPIProject/orders.py:455-462 | The purge keeps exactly the rows with expires_at ≥ now, unchanged. |
| DiscountCodes.PurgeExpired | FastAPIProject/orders.py:455-462 | The deletion loop over the rows read at the start leaves exactly `Unexpired`. |
| DiscountCodes.PurgeIdempotent | FastAPIProject/orders.py:459-462 | Purging twice is purging once, and no expired row survives. |
| DiscountCodes.NewCode | FastAPIProject/orders.py:381-414 | Creation succeeds exactly for an admin (flag 1, else 403) with a code not yet in use (else 400). The new row expires 30 days after its creation and records its creator. Other rows are unchanged. |
| DiscountCodes.CreateDiscount | FastAPIProject/orders.py:375-422 | The handler commits exactly `NewCode` and ignores the requested expiry. The reply is the stored row. |
| DiscountCodes.CreateTwiceRefused | FastAPIProject/orders.py:388-395 | Creating the same code again is refused with 400, and creation keeps codes unique. |
| DiscountCodes.DeleteDiscountCode | FastAPIProject/orders.py:424-451 | Deletion succeeds exactly for an admin (else 403) when the code exists (else 404). Then exactly one row carrying the code is removed, and a failure changes nothing. |
| DiscountCodes.DeleteUndoesCreate | FastAPIProject/orders.py:438-449 | Deleting a code just created under a fresh id removes that row and restores the table. |
| DiscountCodes.QuoteFor | FastAPIProject/orders.py:501-504 | Discount amount plus final price equals the original total, and the final price is the percentage formula. For 0–100% both lie between 0 and the total. |
| DiscountCodes.ApplyToCart | FastAPIProject/orders.py:495-512 | A cart whose discount column is anything but 0 is refused with 400. Otherwise the cart's discount becomes the percentage and its total the final price, and nothing else changes. |
| DiscountCodes.SecondApplyRefused | FastAPIProject/orders.py:495-512 | A second application to the same cart is refused exactly when the first percentage was not 0. |
| DiscountCodes.ApplyDiscount | FastAPIProject/orders.py:465-519 | The purge always persists. An unknown code gives 404, then a missing cart gives 404, and any failure leaves the orders table alone. On success an unexpired row with the code and a cart of the caller exist, the orders table is `ApplyToCart` and the reply is `QuoteFor` the old total. Whenever the code and a cart both exist, the handler commits exactly `ApplyToCart` for some such row and cart. |
| DiscountCodes.AppliedCodeUnexpired | FastAPIProject/orders.py:472-476 | A code found after the purge has not expired. |

## Where the code and the design disagree

The model follows the code in each case.

- Pickup orders are geocoded and distance-checked too (server/order/orders_2.py:155-174). The design says pickup skips both and pays no fee.
- A chosen courier without a profile leaves the courier columns null and the order is still created (server/order/orders_2.py:247-250). The design says this should fail.
- The geocoder's own "no match" error (400) is raised inside its catch-all and reaches the client as 500 (server/order/orders_2.py:111-124).
- In `FastAPIProject/orders.py` the deliberate 403/404 errors of `update_cart`, `remove_from_cart` and `update_order_status` are caught and re-signalled as 500. The discount handlers there have no catch-all and emit 403/404/400 directly.
- A 0% code applied to a cart writes back the 0 that the "already applied" check looks for. Such a code can therefore be applied again (`DiscountCodes.SecondApplyRefused`).
- `add_discounts` performs no duplicate-code check. After it, codes need not be unique, and lookups by code return any matching row.

## Left out

- Identity: token decoding and issuance. The caller's identity is an input.
- Geocoding and the geodesic distance, which are network I/O and floating point. The geocoder's outcome and the distance are inputs, and the restaurant's coordinates are not modelled.
- `float(...)` and floating-point money. All amounts are exact reals.
- Multiple clock readings in one request: a request takes a single `now`. In `delete_expired_discounts` the source reads the clock once per row.
- Database errors. Any failure of the store itself (a connection error, a malformed query) is not modelled. In the catch-all handlers such a failure would surface as 500.
- CQL upsert semantics. A status UPDATE on an absent order id is modelled as leaving the table unchanged (`ServerOrders.SetStatus`, `LegacyOrders.OverwriteStatus`). In the database it would create a partial row.
- Which row `.one()` returns when several match. Nothing makes discount codes or a customer's carts unique, so the lookups return an arbitrary matching row and the handlers' contracts quantify over it.
- Concurrency. The handlers are async and unsynchronised, and the courier choice races with other creations. Each request is modelled as one sequential step.
- Lifecycle.UpdateOrder and Lifecycle.CancelOrder, for the earlier service: FastAPIProject/orders_2.py:171 and :211 select the order by id and customer without ALLOW FILTERING, where the current service adds it. They are modelled as working lookups, not as the query error the database may raise.
- ServerOrders.CreateOrder: the discount lookup by code is issued without ALLOW FILTERING. It is modelled as a working lookup, not as the query error the database may raise.
- The read-only listing endpoints `get_pending_orders`, `get_prepared_orders` and `get_user_prepared_orders`, which are status filters outside the core. `get_user_pending_orders` is also left out: it indexes the caller's identifier as a dictionary and cannot succeed.
- Roster order. The roster is a map in the database, and "first" means its iteration order. The model takes the roster as a sequence in that order.
- Response messages and other reply text, other than the fields modelled in `Carts.GetCart` and `DiscountCodes.Quote`.
