/** The order service of `server/order`: order creation with server-side
    pricing and courier assignment, and the validated status update.  (Its edit
    and cancel handlers are those of `Lifecycle`.)

    Geocoding and the geodesic distance are computed outside the model: the
    geocoder's outcome and the distance in kilometres are inputs, and so are
    the clock reading `now` and the fresh order id. */
module ServerOrders {
  import opened Errors
  import opened Schema
  import opened Access
  import opened Pricing
  import opened Couriers
  import opened Lookups

  /** The body of a create request. */
  datatype OrderRequest = OrderRequest(
    restaurant: RestaurantId,
    products: map<ItemId, int>,
    discount: Option<string>,
    paymentMethod: string,
    deliveryMethod: string,
    address: Option<string>)

  /** What the geocoder made of the request's address.  Its own "no match"
      error is raised inside a catch-all and so reaches the client as 500. */
  datatype Geocode = Located(lat: real, lon: real) | NotFound | TimedOut | Failed

  /** `found` is a row the discount lookup may return for the request's code:
      nothing is looked up without a code, and a code matches no row exactly
      when the lookup finds none. */
  ghost predicate IsCodeLookup(discounts: map<DiscountId, Discount>, code: Option<string>, found: Option<Discount>) {
    if Blank(code) then found == None
    else (found.None? <==> !HasCode(discounts, code.value))
         && (found.Some? ==> found.value in discounts.Values && found.value.code == code.value)
  }

  /** A lookup result exists for every table and code. */
  ghost function SomeLookup(discounts: map<DiscountId, Discount>, code: Option<string>): (found: Option<Discount>)
    ensures IsCodeLookup(discounts, code, found)
  {
    if !Blank(code) && HasCode(discounts, code.value) then
      var id :| id in discounts && discounts[id].code == code.value;
      Some(discounts[id])
    else None
  }

  /** The `discount` column of the new row: the request's code as given. */
  function StoredCode(code: Option<string>): DiscountColumn {
    if code.Some? then Code(code.value) else NoDiscount
  }

  /** The percentage the lookup result grants, 0 without a code. */
  function Percentage(code: Option<string>, found: Option<Discount>): int {
    if !Blank(code) && found.Some? then found.value.percentage else 0
  }

  /** The request passes the checks that come before pricing: an address
      when one is needed, a known restaurant, a located address within the
      delivery range. */
  predicate Deliverable(req: OrderRequest, geo: Geocode, distanceKm: real, restaurants: map<RestaurantId, Restaurant>) {
    && !MissingAddress(req.deliveryMethod, req.address)
    && req.restaurant in restaurants
    && geo.Located?
    && distanceKm <= MaxDistanceKm
  }

  /** The request also passes the pricing checks: every item has a price at
      the restaurant, and a code, when given, was found and has not expired. */
  predicate Payable(req: OrderRequest, now: int, geo: Geocode, distanceKm: real,
                    restaurants: map<RestaurantId, Restaurant>, prices: map<(RestaurantId, ItemId), real>,
                    found: Option<Discount>) {
    && Deliverable(req, geo, distanceKm, restaurants)
    && AllPriced(req.products, prices, req.restaurant)
    && (!Blank(req.discount) ==> found.Some? && found.value.expiresAt >= now)
  }

  /** The creation pipeline as one decision: the checks in the handler's order
      (address, restaurant, geocoding, distance, item prices, discount code,
      roster, available courier) and, when all pass, the row to insert. */
  ghost function PlaceOrder(req: OrderRequest, caller: CustomerId, now: int, geo: Geocode, distanceKm: real,
                            restaurants: map<RestaurantId, Restaurant>, prices: map<(RestaurantId, ItemId), real>,
                            found: Option<Discount>, couriers: map<CourierId, Courier>): (r: Result<Order>)
    ensures r.Ok? <==> && Payable(req, now, geo, distanceKm, restaurants, prices, found)
                       && FirstAssigned(restaurants[req.restaurant].roster).Some?
    ensures MissingAddress(req.deliveryMethod, req.address) ==> r == Fail(Error(AddressRequired, 400))
    ensures !MissingAddress(req.deliveryMethod, req.address) && req.restaurant !in restaurants
            ==> r == Fail(Error(RestaurantNotFound, 404))
    ensures !MissingAddress(req.deliveryMethod, req.address) && req.restaurant in restaurants
            ==> && (geo.NotFound? ==> r == Fail(Error(GeocodeNotFound, 500)))
                && (geo.TimedOut? ==> r == Fail(Error(GeocodeTimeout, 504)))
                && (geo.Failed? ==> r == Fail(Error(GeocodeFailed, 500)))
                && (geo.Located? && distanceKm > MaxDistanceKm ==> r == Fail(Error(OutOfRange, 400)))
    ensures Deliverable(req, geo, distanceKm, restaurants) && !AllPriced(req.products, prices, req.restaurant)
            ==> r == Fail(Error(ItemNotFound, 404))
    ensures Deliverable(req, geo, distanceKm, restaurants) && AllPriced(req.products, prices, req.restaurant)
            && !Blank(req.discount)
            ==> && (found.None? ==> r == Fail(Error(DiscountNotFound, 404)))
                && (found.Some? && found.value.expiresAt < now ==> r == Fail(Error(DiscountExpired, 400)))
    ensures Payable(req, now, geo, distanceKm, restaurants, prices, found)
            ==> && (restaurants[req.restaurant].roster == [] ==> r == Fail(Error(NoCouriers, 404)))
                && (restaurants[req.restaurant].roster != [] && FirstAssigned(restaurants[req.restaurant].roster).None?
                    ==> r == Fail(Error(NoAvailableCourier, 404)))
    ensures r.Ok? ==> && r.value.customer == caller
                      && r.value.restaurant == Some(req.restaurant)
                      && r.value.products == req.products
                      && r.value.paymentMethod == req.paymentMethod
                      && r.value.deliveryMethod == req.deliveryMethod
                      && r.value.address == req.address
                      && r.value.discount == StoredCode(req.discount)
                      && r.value.status == Pending
                      && r.value.createdAt == now
                      && r.value.eta == Some(now + DeliveryEstimate)
                      && r.value.deliveryTime == None
    ensures r.Ok? ==> r.value.totalPrice
                      == Subtotal(req.products, prices, req.restaurant)
                         * (1.0 - Percentage(req.discount, found) as real / 100.0)
                         + 2.5 * distanceKm
    ensures r.Ok? ==> exists c :: FirstAssigned(restaurants[req.restaurant].roster) == Some(c)
                                  && r.value.courier == CourierDetails(couriers, c)
  {
    if MissingAddress(req.deliveryMethod, req.address) then Fail(Error(AddressRequired, 400))
    else if req.restaurant !in restaurants then Fail(Error(RestaurantNotFound, 404))
    else if geo.NotFound? then Fail(Error(GeocodeNotFound, 500))
    else if geo.TimedOut? then Fail(Error(GeocodeTimeout, 504))
    else if geo.Failed? then Fail(Error(GeocodeFailed, 500))
    else
      match DeliveryFee(distanceKm)
      case Fail(e) => Fail(e)
      case Ok(fee) =>
        if !AllPriced(req.products, prices, req.restaurant) then Fail(Error(ItemNotFound, 404))
        else if !Blank(req.discount) && found.None? then Fail(Error(DiscountNotFound, 404))
        else if !Blank(req.discount) && found.value.expiresAt < now then Fail(Error(DiscountExpired, 400))
        else
          var subtotal := Subtotal(req.products, prices, req.restaurant);
          var discounted := if Blank(req.discount) then subtotal else ApplyPercentage(subtotal, found.value.percentage);
          var roster := restaurants[req.restaurant].roster;
          if roster == [] then Fail(Error(NoCouriers, 404))
          else
            match FirstAssigned(roster)
            case None => Fail(Error(NoAvailableCourier, 404))
            case Some(c) =>
              Ok(Order(caller, Some(req.restaurant), req.products, discounted + fee, StoredCode(req.discount),
                       req.paymentMethod, req.deliveryMethod, req.address, Pending, now,
                       Some(now + DeliveryEstimate), None, CourierDetails(couriers, c)))
  }

  /** The create handler.  It writes nothing until the final insert: every
      failure leaves the orders table as it was, and no other table is
      written at all. */
  method CreateOrder(db: Db, req: OrderRequest, caller: CustomerId, now: int, geo: Geocode, distanceKm: real, id: OrderId)
    returns (r: Result<OrderId>)
    modifies db`orders
    ensures r.Ok? ==> r.value == id
    ensures exists found :: (IsCodeLookup(db.discounts, req.discount, found)
              && Commits(Insert(PlaceOrder(req, caller, now, geo, distanceKm, db.restaurants, db.prices, found, db.couriers),
                                old(db.orders), id),
                         r, old(db.orders), db.orders))
  {
    ghost var found := SomeLookup(db.discounts, req.discount);
    if MissingAddress(req.deliveryMethod, req.address) {
      return Fail(Error(AddressRequired, 400));
    }
    if req.restaurant !in db.restaurants {
      return Fail(Error(RestaurantNotFound, 404));
    }
    match geo {
      case NotFound => return Fail(Error(GeocodeNotFound, 500));
      case TimedOut => return Fail(Error(GeocodeTimeout, 504));
      case Failed => return Fail(Error(GeocodeFailed, 500));
      case Located(_, _) =>
    }
    if distanceKm > MaxDistanceKm {
      return Fail(Error(OutOfRange, 400));
    }
    var fee := FeePerKm * distanceKm;
    var missing, total := ComputeSubtotal(req.products, db.prices, req.restaurant);
    if missing.Some? {
      return Fail(Error(ItemNotFound, 404));
    }
    if !Blank(req.discount) {
      var key := FindDiscount(db.discounts, req.discount.value);
      if key.None? {
        found := None;
        return Fail(Error(DiscountNotFound, 404));
      }
      var row := db.discounts[key.value];
      assert row in db.discounts.Values;
      found := Some(row);
      if row.expiresAt < now {
        assert IsCodeLookup(db.discounts, req.discount, found);
        assert PlaceOrder(req, caller, now, geo, distanceKm, db.restaurants, db.prices, found, db.couriers)
            == Fail(Error(DiscountExpired, 400));
        return Fail(Error(DiscountExpired, 400));
      }
      total := total - total * (row.percentage as real / 100.0);
    }
    total := total + fee;
    assert IsCodeLookup(db.discounts, req.discount, found);
    assert total == (if Blank(req.discount) then Subtotal(req.products, db.prices, req.restaurant)
                     else ApplyPercentage(Subtotal(req.products, db.prices, req.restaurant), found.value.percentage)) + fee;
    ghost var plan := PlaceOrder(req, caller, now, geo, distanceKm, db.restaurants, db.prices, found, db.couriers);
    var roster := db.restaurants[req.restaurant].roster;
    if roster == [] {
      assert plan == Fail(Error(NoCouriers, 404));
      return Fail(Error(NoCouriers, 404));
    }
    var courier := PickCourier(roster);
    if courier.None? {
      assert plan == Fail(Error(NoAvailableCourier, 404));
      return Fail(Error(NoAvailableCourier, 404));
    }
    var details := CourierFields(None, None, None);
    if courier.value in db.couriers {
      var profile := db.couriers[courier.value];
      details := CourierFields(Some(courier.value), Some(profile.name), Some(profile.phone));
    }
    var row := Order(caller, Some(req.restaurant), req.products, total, StoredCode(req.discount),
                     req.paymentMethod, req.deliveryMethod, req.address, Pending, now,
                     Some(now + DeliveryEstimate), None, details);
    assert plan == Ok(row);
    db.orders := db.orders[id := row];
    r := Ok(id);
    assert IsCodeLookup(db.discounts, req.discount, found);
    assert Commits(Insert(PlaceOrder(req, caller, now, geo, distanceKm, db.restaurants, db.prices, found, db.couriers),
                          old(db.orders), id), r, old(db.orders), db.orders);
  }

  /** The delivery distance limit is inclusive: once the earlier checks pass,
      creation fails for being out of range exactly when the distance is
      above 20 km. */
  lemma DistanceLimit(req: OrderRequest, caller: CustomerId, now: int, geo: Geocode, distanceKm: real,
                      restaurants: map<RestaurantId, Restaurant>, prices: map<(RestaurantId, ItemId), real>,
                      found: Option<Discount>, couriers: map<CourierId, Courier>)
    requires !MissingAddress(req.deliveryMethod, req.address) && req.restaurant in restaurants && geo.Located?
    ensures var r := PlaceOrder(req, caller, now, geo, distanceKm, restaurants, prices, found, couriers);
            (r.Fail? && r.error.kind == OutOfRange) <==> distanceKm > 20.0
  {
  }

  /** A code that expires exactly now is still accepted; one that expired a
      second ago is refused. */
  lemma DiscountExpiryBoundary(req: OrderRequest, caller: CustomerId, now: int, geo: Geocode, distanceKm: real,
                               restaurants: map<RestaurantId, Restaurant>, prices: map<(RestaurantId, ItemId), real>,
                               d: Discount, couriers: map<CourierId, Courier>)
    requires !MissingAddress(req.deliveryMethod, req.address) && req.restaurant in restaurants && geo.Located?
    requires distanceKm <= MaxDistanceKm && AllPriced(req.products, prices, req.restaurant) && !Blank(req.discount)
    ensures PlaceOrder(req, caller, now, geo, distanceKm, restaurants, prices, Some(d.(expiresAt := now)), couriers)
            != Fail(Error(DiscountExpired, 400))
    ensures PlaceOrder(req, caller, now, geo, distanceKm, restaurants, prices, Some(d.(expiresAt := now - 1)), couriers)
            == Fail(Error(DiscountExpired, 400))
  {
  }

  /** The statuses a worker may set. */
  const Statuses: set<string> := {Pending, InProgress, Delivered, Canceled}

  /** The status update after the worker check.  Only "Delivered" looks at the
      row: it must exist and not be delivered already, and it is stamped with
      the delivery time.  Any other valid status is written without looking; a
      write to an absent row leaves the table as it is. */
  function SetStatus(orders: map<OrderId, Order>, id: OrderId, status: string, now: int): (r: Result<map<OrderId, Order>>)
    ensures status !in Statuses ==> r == Fail(Error(InvalidStatus, 400))
    ensures status == Delivered && id !in orders ==> r == Fail(Error(OrderNotFound, 404))
    ensures status == Delivered && id in orders && orders[id].status == Delivered ==> r == Fail(Error(AlreadyDelivered, 400))
    ensures r.Ok? <==> status in Statuses && (status == Delivered ==> id in orders && orders[id].status != Delivered)
    ensures r.Ok? ==> r.value.Keys == orders.Keys && forall k :: k in orders && k != id ==> r.value[k] == orders[k]
    ensures r.Ok? && id in orders ==> r.value[id].status == status
                                      && r.value[id].deliveryTime == (if status == Delivered then Some(now) else orders[id].deliveryTime)
                                      && r.value[id].(status := orders[id].status, deliveryTime := orders[id].deliveryTime) == orders[id]
  {
    if status !in Statuses then Fail(Error(InvalidStatus, 400))
    else if status == Delivered then
      if id !in orders then Fail(Error(OrderNotFound, 404))
      else if orders[id].status == Delivered then Fail(Error(AlreadyDelivered, 400))
      else Ok(orders[id := orders[id].(deliveryTime := Some(now), status := Delivered)])
    else if id in orders then Ok(orders[id := orders[id].(status := status)])
    else Ok(orders)
  }

  /** The whole privileged endpoint: the worker dependency first, then the
      status update. */
  function StatusUpdate(customers: map<CustomerId, Customer>, orders: map<OrderId, Order>, caller: CustomerId,
                        id: OrderId, status: string, now: int): (r: Result<map<OrderId, Order>>)
    ensures !IsWorker(customers, caller) ==> r == Fail(Error(WorkerRequired, 403))
    ensures IsWorker(customers, caller) ==> r == SetStatus(orders, id, status, now)
  {
    match VerifyWorker(customers, caller)
    case Fail(e) => Fail(e)
    case Ok(_) => SetStatus(orders, id, status, now)
  }

  /** The status handler: two separate writes for "Delivered" (the delivery
      time, then the status), one otherwise. */
  method UpdateOrderStatus(db: Db, caller: CustomerId, id: OrderId, status: string, now: int) returns (r: Result<()>)
    modifies db`orders
    ensures Commits(StatusUpdate(db.customers, old(db.orders), caller, id, status, now), r, old(db.orders), db.orders)
  {
    var worker := VerifyWorker(db.customers, caller);
    if worker.Fail? {
      return Fail(worker.error);
    }
    if status !in Statuses {
      return Fail(Error(InvalidStatus, 400));
    }
    if status == Delivered {
      if id !in db.orders {
        return Fail(Error(OrderNotFound, 404));
      }
      if db.orders[id].status == Delivered {
        return Fail(Error(AlreadyDelivered, 400));
      }
      db.orders := db.orders[id := db.orders[id].(deliveryTime := Some(now))];
    }
    if id in db.orders {
      db.orders := db.orders[id := db.orders[id].(status := status)];
    }
    if status == Delivered {
      assert db.orders == old(db.orders)[id := old(db.orders)[id].(deliveryTime := Some(now), status := Delivered)];
      assert SetStatus(old(db.orders), id, status, now) == Ok(db.orders);
    } else if id in old(db.orders) {
      assert SetStatus(old(db.orders), id, status, now) == Ok(db.orders);
    } else {
      assert SetStatus(old(db.orders), id, status, now) == Ok(db.orders);
    }
    assert IsWorker(db.customers, caller);
    r := Ok(());
  }

  /** Marking an order delivered twice: the first request stamps the delivery
      time, the second is refused, whatever its clock reading. */
  lemma DeliveredOnce(orders: map<OrderId, Order>, id: OrderId, now: int, later: int)
    requires id in orders && orders[id].status != Delivered
    ensures SetStatus(orders, id, Delivered, now).Ok?
    ensures SetStatus(orders, id, Delivered, now).value[id].deliveryTime == Some(now)
    ensures SetStatus(SetStatus(orders, id, Delivered, now).value, id, Delivered, later) == Fail(Error(AlreadyDelivered, 400))
  {
  }
}
