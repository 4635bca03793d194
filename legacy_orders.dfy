/** The earlier order service (`FastAPIProject/orders_2.py`): the client
    supplies the total price and the delivery estimate, the only server-side
    work at creation is the courier assignment, status updates are written
    unvalidated, and workers may bulk-insert discount codes.  (Its edit and
    cancel handlers are those of `Lifecycle`.) */
module LegacyOrders {
  import opened Errors
  import opened Schema
  import opened Access
  import opened Couriers

  /** The body of a create request; price, discount and estimate come from
      the client. */
  datatype LegacyOrderRequest = LegacyOrderRequest(
    restaurant: RestaurantId,
    products: map<ItemId, int>,
    totalPrice: real,
    discount: Option<real>,
    paymentMethod: string,
    deliveryMethod: string,
    address: Option<string>,
    eta: int)

  function StoredAmount(discount: Option<real>): DiscountColumn {
    if discount.Some? then Amount(discount.value) else NoDiscount
  }

  /** Creation as one decision: the address check, the roster checks, and the
      row carrying the client's figures verbatim. */
  function PlaceLegacyOrder(req: LegacyOrderRequest, caller: CustomerId, now: int,
                            restaurants: map<RestaurantId, Restaurant>, couriers: map<CourierId, Courier>): (r: Result<Order>)
    ensures MissingAddress(req.deliveryMethod, req.address) ==> r == Fail(Error(AddressRequired, 400))
    ensures !MissingAddress(req.deliveryMethod, req.address)
            && (req.restaurant !in restaurants || restaurants[req.restaurant].roster == [])
            ==> r == Fail(Error(NoCouriers, 404))
    ensures !MissingAddress(req.deliveryMethod, req.address) && req.restaurant in restaurants
            && restaurants[req.restaurant].roster != [] && FirstAssigned(restaurants[req.restaurant].roster).None?
            ==> r == Fail(Error(NoAvailableCourier, 404))
    ensures r.Ok? <==> !MissingAddress(req.deliveryMethod, req.address) && req.restaurant in restaurants
                       && FirstAssigned(restaurants[req.restaurant].roster).Some?
    ensures r.Ok? ==> && r.value.totalPrice == req.totalPrice
                      && r.value.eta == Some(req.eta)
                      && r.value.discount == StoredAmount(req.discount)
                      && r.value.status == Pending
                      && r.value.createdAt == now
                      && r.value.customer == caller
                      && r.value.products == req.products
                      && r.value.restaurant == Some(req.restaurant)
                      && r.value.paymentMethod == req.paymentMethod
                      && r.value.deliveryMethod == req.deliveryMethod
                      && r.value.address == req.address
                      && r.value.deliveryTime == None
                      && r.value.courier == CourierDetails(couriers, FirstAssigned(restaurants[req.restaurant].roster).value)
  {
    if MissingAddress(req.deliveryMethod, req.address) then Fail(Error(AddressRequired, 400))
    else if req.restaurant !in restaurants || restaurants[req.restaurant].roster == [] then Fail(Error(NoCouriers, 404))
    else
      match FirstAssigned(restaurants[req.restaurant].roster)
      case None => Fail(Error(NoAvailableCourier, 404))
      case Some(c) =>
        Ok(Order(caller, Some(req.restaurant), req.products, req.totalPrice, StoredAmount(req.discount),
                 req.paymentMethod, req.deliveryMethod, req.address, Pending, now,
                 Some(req.eta), None, CourierDetails(couriers, c)))
  }

  /** The create handler: nothing is written before the final insert. */
  method CreateOrder(db: Db, req: LegacyOrderRequest, caller: CustomerId, now: int, id: OrderId) returns (r: Result<OrderId>)
    modifies db`orders
    ensures r.Ok? ==> r.value == id
    ensures Commits(Insert(PlaceLegacyOrder(req, caller, now, db.restaurants, db.couriers), old(db.orders), id),
                    r, old(db.orders), db.orders)
  {
    if MissingAddress(req.deliveryMethod, req.address) {
      return Fail(Error(AddressRequired, 400));
    }
    if req.restaurant !in db.restaurants || db.restaurants[req.restaurant].roster == [] {
      return Fail(Error(NoCouriers, 404));
    }
    var courier := PickCourier(db.restaurants[req.restaurant].roster);
    if courier.None? {
      return Fail(Error(NoAvailableCourier, 404));
    }
    var details := CourierFields(None, None, None);
    if courier.value in db.couriers {
      var profile := db.couriers[courier.value];
      details := CourierFields(Some(courier.value), Some(profile.name), Some(profile.phone));
    }
    var row := Order(caller, Some(req.restaurant), req.products, req.totalPrice, StoredAmount(req.discount),
                     req.paymentMethod, req.deliveryMethod, req.address, Pending, now,
                     Some(req.eta), None, details);
    db.orders := db.orders[id := row];
    r := Ok(id);
  }

  /** The unvalidated status update: after the worker check any string is
      written, on an existing row only its status changes, and a write to an
      absent row leaves the table as it is. */
  function OverwriteStatus(customers: map<CustomerId, Customer>, orders: map<OrderId, Order>, caller: CustomerId,
                           id: OrderId, status: string): (r: Result<map<OrderId, Order>>)
    ensures r.Ok? <==> IsWorker(customers, caller)
    ensures r.Fail? ==> r.error == Error(WorkerRequired, 403)
    ensures r.Ok? ==> r.value.Keys == orders.Keys && forall k :: k in orders && k != id ==> r.value[k] == orders[k]
    ensures r.Ok? && id in orders ==> r.value[id] == orders[id].(status := status)
  {
    match VerifyWorker(customers, caller)
    case Fail(e) => Fail(e)
    case Ok(_) => if id in orders then Ok(orders[id := orders[id].(status := status)]) else Ok(orders)
  }

  method UpdateOrderStatus(db: Db, caller: CustomerId, id: OrderId, status: string) returns (r: Result<()>)
    modifies db`orders
    ensures Commits(OverwriteStatus(db.customers, old(db.orders), caller, id, status), r, old(db.orders), db.orders)
  {
    var worker := VerifyWorker(db.customers, caller);
    if worker.Fail? {
      return Fail(worker.error);
    }
    if id in db.orders {
      db.orders := db.orders[id := db.orders[id].(status := status)];
    }
    r := Ok(());
  }

  /** One entry of a bulk discount request. */
  datatype NewDiscount = NewDiscount(code: string, percentage: int, expiresAt: int)

  /** The row stored for an entry: its own expiry, no creator recorded. */
  function DiscountRow(entry: NewDiscount, now: int): Discount {
    Discount(entry.code, entry.percentage, now, entry.expiresAt, None)
  }

  /** The discounts table after inserting the entries in order, entry i under
      id i. */
  function Inserted(discounts: map<DiscountId, Discount>, entries: seq<NewDiscount>, ids: seq<DiscountId>, now: int)
    : map<DiscountId, Discount>
    requires |ids| == |entries|
    decreases |entries|
  {
    if entries == [] then discounts
    else Inserted(discounts, entries[..|entries| - 1], ids[..|ids| - 1], now)[ids[|ids| - 1] := DiscountRow(entries[|entries| - 1], now)]
  }

  /** The bulk insert after the worker check; there is no check for codes
      already in use. */
  function AddAll(customers: map<CustomerId, Customer>, discounts: map<DiscountId, Discount>, caller: CustomerId,
                  entries: seq<NewDiscount>, ids: seq<DiscountId>, now: int): (r: Result<map<DiscountId, Discount>>)
    requires |ids| == |entries|
    ensures r.Ok? <==> IsWorker(customers, caller)
    ensures r.Fail? ==> r.error == Error(WorkerRequired, 403)
  {
    match VerifyWorker(customers, caller)
    case Fail(e) => Fail(e)
    case Ok(_) => Ok(Inserted(discounts, entries, ids, now))
  }

  /** The bulk discount handler: one insert per entry, each under its own
      fresh id (the ids stand for the handler's uuid4 calls). */
  method AddDiscounts(db: Db, caller: CustomerId, entries: seq<NewDiscount>, ids: seq<DiscountId>, now: int)
    returns (r: Result<()>)
    requires |ids| == |entries|
    modifies db`discounts
    ensures Commits(AddAll(db.customers, old(db.discounts), caller, entries, ids, now), r, old(db.discounts), db.discounts)
  {
    var worker := VerifyWorker(db.customers, caller);
    if worker.Fail? {
      return Fail(worker.error);
    }
    var i := 0;
    while i < |entries|
      invariant 0 <= i <= |entries|
      invariant db.discounts == Inserted(old(db.discounts), entries[..i], ids[..i], now)
    {
      assert entries[..i + 1][..i] == entries[..i];
      assert ids[..i + 1][..i] == ids[..i];
      db.discounts := db.discounts[ids[i] := DiscountRow(entries[i], now)];
      i := i + 1;
    }
    assert entries[..i] == entries && ids[..i] == ids;
    r := Ok(());
  }

  /** With distinct fresh ids, every entry is stored under its id, duplicate
      codes included, every earlier row is kept, and the table grows by
      exactly the number of entries. */
  lemma InsertedRows(discounts: map<DiscountId, Discount>, entries: seq<NewDiscount>,
                     ids: seq<DiscountId>, now: int)
    requires |ids| == |entries|
    requires forall i, j :: 0 <= i < j < |ids| ==> ids[i] != ids[j]
    requires forall i :: 0 <= i < |ids| ==> ids[i] !in discounts
    ensures forall i :: 0 <= i < |ids| ==> ids[i] in Inserted(discounts, entries, ids, now)
                                           && Inserted(discounts, entries, ids, now)[ids[i]] == DiscountRow(entries[i], now)
    ensures forall k :: k in discounts ==> k in Inserted(discounts, entries, ids, now)
                                           && Inserted(discounts, entries, ids, now)[k] == discounts[k]
    ensures |Inserted(discounts, entries, ids, now)| == |discounts| + |entries|
  {
    forall i | 0 <= i < |ids|
      ensures ids[i] in Inserted(discounts, entries, ids, now)
              && Inserted(discounts, entries, ids, now)[ids[i]] == DiscountRow(entries[i], now)
    {
      InsertedAt(discounts, entries, ids, now, i);
    }
    forall k | k in discounts
      ensures k in Inserted(discounts, entries, ids, now) && Inserted(discounts, entries, ids, now)[k] == discounts[k]
    {
      InsertedKeeps(discounts, entries, ids, now, k);
    }
    InsertedSize(discounts, entries, ids, now);
  }

  /** Entry i is stored under id i when no later entry reuses that id. */
  lemma {:induction false} InsertedAt(discounts: map<DiscountId, Discount>, entries: seq<NewDiscount>,
                                      ids: seq<DiscountId>, now: int, i: int)
    requires |ids| == |entries| && 0 <= i < |ids|
    requires forall j :: i < j < |ids| ==> ids[j] != ids[i]
    ensures ids[i] in Inserted(discounts, entries, ids, now)
    ensures Inserted(discounts, entries, ids, now)[ids[i]] == DiscountRow(entries[i], now)
    decreases |entries|
  {
    var n := |entries| - 1;
    if i < n {
      forall j | i < j < n ensures ids[..n][j] != ids[..n][i] {
        assert ids[..n][j] == ids[j];
      }
      InsertedAt(discounts, entries[..n], ids[..n], now, i);
      assert ids[..n][i] == ids[i] && entries[..n][i] == entries[i];
      assert ids[n] != ids[i];
    }
  }

  /** A row whose id none of the entries uses is kept. */
  lemma {:induction false} InsertedKeeps(discounts: map<DiscountId, Discount>, entries: seq<NewDiscount>,
                                         ids: seq<DiscountId>, now: int, k: DiscountId)
    requires |ids| == |entries| && k in discounts && k !in ids
    ensures k in Inserted(discounts, entries, ids, now) && Inserted(discounts, entries, ids, now)[k] == discounts[k]
    decreases |entries|
  {
    if entries != [] {
      var n := |entries| - 1;
      InsertedKeeps(discounts, entries[..n], ids[..n], now, k);
      assert ids[n] != k;
    }
  }

  /** Distinct fresh ids grow the table by one row per entry. */
  lemma {:induction false} InsertedSize(discounts: map<DiscountId, Discount>, entries: seq<NewDiscount>,
                                        ids: seq<DiscountId>, now: int)
    requires |ids| == |entries|
    requires forall i, j :: 0 <= i < j < |ids| ==> ids[i] != ids[j]
    requires forall i :: 0 <= i < |ids| ==> ids[i] !in discounts
    ensures |Inserted(discounts, entries, ids, now)| == |discounts| + |entries|
    decreases |entries|
  {
    if entries != [] {
      var n := |entries| - 1;
      var prefix := ids[..n];
      assert forall i :: 0 <= i < n ==> prefix[i] == ids[i];
      InsertedSize(discounts, entries[..n], prefix, now);
      var before := Inserted(discounts, entries[..n], prefix, now);
      InsertedKeys(discounts, entries[..n], prefix, now);
      assert ids[n] !in before by {
        assert ids[n] !in discounts;
        forall i | 0 <= i < n ensures prefix[i] != ids[n] { }
      }
    }
  }

  lemma {:induction false} InsertedKeys(discounts: map<DiscountId, Discount>, entries: seq<NewDiscount>,
                                        ids: seq<DiscountId>, now: int)
    requires |ids| == |entries|
    ensures Inserted(discounts, entries, ids, now).Keys == discounts.Keys + set i | 0 <= i < |ids| :: ids[i]
    decreases |entries|
  {
    if entries != [] {
      var n := |entries| - 1;
      InsertedKeys(discounts, entries[..n], ids[..n], now);
      assert (set i | 0 <= i < |ids| :: ids[i]) == (set i | 0 <= i < n :: ids[..n][i]) + {ids[n]} by {
        forall i | 0 <= i < n ensures ids[..n][i] == ids[i] { }
      }
    }
  }
}
