/** The cart handlers and the worker status overwrite of the earlier order
    service (`FastAPIProject/orders.py`).  A cart is an order row with status
    "cart"; a handler finds the caller's cart, changes a copy of its products
    map one line at a time and writes the map back.  Most of these handlers
    catch every exception, so the 403 and 404 errors they raise reach the
    client as 500. */
module Carts {
  import opened Errors
  import opened Schema
  import opened Access
  import opened Lookups

  /** The products map after adding `quantity` of `item`: merged into an
      existing line, or a new line. */
  function AddLine(products: map<ItemId, int>, item: ItemId, quantity: int): (p: map<ItemId, int>)
    ensures p.Keys == products.Keys + {item}
    ensures p[item] == (if item in products then products[item] else 0) + quantity
    ensures forall k :: k in products && k != item ==> p[k] == products[k]
  {
    if item in products then products[item := products[item] + quantity] else products[item := quantity]
  }

  /** The products map after setting the line of `item`: a non-positive
      quantity removes the line, any other replaces it. */
  function SetLine(products: map<ItemId, int>, item: ItemId, quantity: int): (p: map<ItemId, int>)
    ensures quantity <= 0 ==> p.Keys == products.Keys - {item}
    ensures quantity > 0 ==> p.Keys == products.Keys + {item} && p[item] == quantity
    ensures forall k :: k in products && k != item ==> k in p && p[k] == products[k]
  {
    if quantity <= 0 then products - {item} else products[item := quantity]
  }

  /** The products map without the line of `item`, whether it was there or
      not. */
  function RemoveLine(products: map<ItemId, int>, item: ItemId): (p: map<ItemId, int>)
    ensures p.Keys == products.Keys - {item}
    ensures forall k :: k in p ==> p[k] == products[k]
  {
    products - {item}
  }

  /** Every line of the cart holds a positive quantity. */
  predicate PositiveLines(products: map<ItemId, int>) {
    forall k :: k in products ==> products[k] > 0
  }

  /** Two additions of one item are one addition of the summed quantity. */
  lemma AddLineMerges(products: map<ItemId, int>, item: ItemId, a: int, b: int)
    ensures AddLine(AddLine(products, item, a), item, b) == AddLine(products, item, a + b)
  {
  }

  /** Removing a line undoes adding it to a cart that did not hold it, and
      setting a non-positive quantity is removing. */
  lemma RemoveUndoesAdd(products: map<ItemId, int>, item: ItemId, quantity: int)
    ensures item !in products ==> RemoveLine(AddLine(products, item, quantity), item) == products
    ensures quantity <= 0 ==> SetLine(products, item, quantity) == RemoveLine(products, item)
  {
  }

  /** Removing a line twice is removing it once, and setting a line twice
      with the same quantity is setting it once. */
  lemma LineEditsIdempotent(products: map<ItemId, int>, item: ItemId, quantity: int)
    ensures RemoveLine(RemoveLine(products, item), item) == RemoveLine(products, item)
    ensures SetLine(SetLine(products, item, quantity), item, quantity) == SetLine(products, item, quantity)
  {
  }

  /** The quantity check of the add handler keeps every line positive, and so
      do the set and remove handlers. */
  lemma EditsKeepLinesPositive(products: map<ItemId, int>, item: ItemId, quantity: int)
    requires PositiveLines(products)
    ensures quantity > 0 ==> PositiveLines(AddLine(products, item, quantity))
    ensures PositiveLines(SetLine(products, item, quantity))
    ensures PositiveLines(RemoveLine(products, item))
  {
  }

  /** The row the add handler inserts when the caller has no cart: one line,
      status "cart", a zero total, a zero discount and the placeholder "none"
      in the address, delivery and payment columns. */
  function NewCart(customer: CustomerId, item: ItemId, quantity: int, now: int): (o: Order)
    ensures o.customer == customer && o.status == CartStatus && o.createdAt == now
    ensures o.products == map[item := quantity]
    ensures o.totalPrice == 0.0 && o.discount == Amount(0.0)
    ensures o.eta.None? && o.restaurant.None? && o.deliveryTime.None?
    ensures o.paymentMethod == "none" && o.deliveryMethod == "none" && o.address == Some("none")
    ensures o.courier == CourierFields(None, None, None)
  {
    Order(customer, None, map[item := quantity], 0.0, Amount(0.0), "none", "none", Some("none"), CartStatus,
          now, None, None, CourierFields(None, None, None))
  }

  /** The orders table after replacing the products of `cart`. */
  function WithProducts(orders: map<OrderId, Order>, cart: OrderId, products: map<ItemId, int>): (r: map<OrderId, Order>)
    requires cart in orders
    ensures r.Keys == orders.Keys && r[cart] == orders[cart].(products := products)
    ensures forall k :: k in orders && k != cart ==> r[k] == orders[k]
  {
    orders[cart := orders[cart].(products := products)]
  }

  /** The add handler.  A non-positive quantity is refused before the store
      is touched; an existing cart of the caller gets the quantity merged in,
      otherwise a new cart is inserted under `newId`.  The reply names the
      cart. */
  method AddToCart(db: Db, caller: CustomerId, item: ItemId, quantity: int, now: int, newId: OrderId)
    returns (r: Result<OrderId>)
    modifies db`orders
    ensures quantity <= 0 ==> r == Fail(Error(InvalidQuantity, 400)) && db.orders == old(db.orders)
    ensures quantity > 0 && HasCart(old(db.orders), caller)
            ==> r.Ok? && IsCartOf(old(db.orders), caller, r.value)
                && db.orders == WithProducts(old(db.orders), r.value, AddLine(old(db.orders)[r.value].products, item, quantity))
    ensures quantity > 0 && !HasCart(old(db.orders), caller)
            ==> r == Ok(newId) && db.orders == old(db.orders)[newId := NewCart(caller, item, quantity, now)]
  {
    if quantity <= 0 {
      return Fail(Error(InvalidQuantity, 400));
    }
    var cart := FindCart(db.orders, caller);
    if cart.Some? {
      var id := cart.value;
      var products := db.orders[id].products;
      if item in products {
        products := products[item := products[item] + quantity];
      } else {
        products := products[item := quantity];
      }
      db.orders := db.orders[id := db.orders[id].(products := products)];
      r := Ok(id);
    } else {
      db.orders := db.orders[newId := NewCart(caller, item, quantity, now)];
      r := Ok(newId);
    }
  }

  /** The store keeps no empty collections: a cart whose products map is
      empty reads back with a null products column, and copying it into a
      dictionary fails inside the handler, which answers 500. */
  const NullRead := Error(NullProducts, 500)

  /** What the set-quantity handler does to the orders table, given what the
      cart lookup `found` answered. */
  function SetCartLine(orders: map<OrderId, Order>, found: Option<OrderId>, item: ItemId, quantity: int)
    : (r: Result<map<OrderId, Order>>)
    requires found.Some? ==> found.value in orders
    ensures r.Ok? <==> found.Some? && orders[found.value].products != map[]
    ensures found.None? ==> r == Fail(Reraised(Error(CartNotFound, 404)))
    ensures found.Some? && orders[found.value].products == map[] ==> r == Fail(NullRead)
    ensures r.Ok? ==> r.value == WithProducts(orders, found.value, SetLine(orders[found.value].products, item, quantity))
  {
    match found
    case None => Fail(Reraised(Error(CartNotFound, 404)))
    case Some(cart) =>
      if orders[cart].products == map[] then Fail(NullRead)
      else Ok(WithProducts(orders, cart, SetLine(orders[cart].products, item, quantity)))
  }

  /** What the remove handler does to the orders table, given what the cart
      lookup `found` answered. */
  function RemoveCartLine(orders: map<OrderId, Order>, found: Option<OrderId>, item: ItemId)
    : (r: Result<map<OrderId, Order>>)
    requires found.Some? ==> found.value in orders
    ensures r.Ok? <==> found.Some? && orders[found.value].products != map[]
    ensures found.None? ==> r == Fail(Reraised(Error(CartNotFound, 404)))
    ensures found.Some? && orders[found.value].products == map[] ==> r == Fail(NullRead)
    ensures r.Ok? ==> r.value == WithProducts(orders, found.value, RemoveLine(orders[found.value].products, item))
  {
    match found
    case None => Fail(Reraised(Error(CartNotFound, 404)))
    case Some(cart) =>
      if orders[cart].products == map[] then Fail(NullRead)
      else Ok(WithProducts(orders, cart, RemoveLine(orders[cart].products, item)))
  }

  /** A cart emptied by the set or remove handler is left with an empty map,
      so every later set or remove on it fails with a null read. */
  lemma EmptiedCartStuck(orders: map<OrderId, Order>, cart: OrderId, item: ItemId, quantity: int, other: ItemId, q: int)
    requires cart in orders && orders[cart].products.Keys <= {item}
    ensures quantity <= 0 && SetCartLine(orders, Some(cart), item, quantity).Ok? ==>
              var after := SetCartLine(orders, Some(cart), item, quantity).value;
              && SetCartLine(after, Some(cart), other, q) == Fail(NullRead)
              && RemoveCartLine(after, Some(cart), other) == Fail(NullRead)
    ensures RemoveCartLine(orders, Some(cart), item).Ok? ==>
              var after := RemoveCartLine(orders, Some(cart), item).value;
              && SetCartLine(after, Some(cart), other, q) == Fail(NullRead)
              && RemoveCartLine(after, Some(cart), other) == Fail(NullRead)
  {
  }

  /** The set-quantity handler; a missing cart is a 404 re-signalled as 500. */
  method UpdateCart(db: Db, caller: CustomerId, item: ItemId, quantity: int) returns (r: Result<()>)
    modifies db`orders
    ensures exists found :: (IsCartLookup(old(db.orders), caller, found)
                             && Commits(SetCartLine(old(db.orders), found, item, quantity), r, old(db.orders), db.orders))
    ensures !HasCart(old(db.orders), caller) ==> r == Fail(Reraised(Error(CartNotFound, 404))) && db.orders == old(db.orders)
  {
    var cart := FindCart(db.orders, caller);
    if cart.None? {
      return Fail(Reraised(Error(CartNotFound, 404)));
    }
    var id := cart.value;
    if db.orders[id].products == map[] {
      return Fail(NullRead);
    }
    var products := db.orders[id].products;
    if quantity <= 0 {
      products := products - {item};
    } else {
      products := products[item := quantity];
    }
    ghost var before := db.orders;
    db.orders := db.orders[id := db.orders[id].(products := products)];
    assert IsCartLookup(before, caller, cart) && db.orders == SetCartLine(before, cart, item, quantity).value;
    r := Ok(());
  }

  /** The remove handler; a missing cart is a 404 re-signalled as 500. */
  method RemoveFromCart(db: Db, caller: CustomerId, item: ItemId) returns (r: Result<()>)
    modifies db`orders
    ensures exists found :: (IsCartLookup(old(db.orders), caller, found)
                             && Commits(RemoveCartLine(old(db.orders), found, item), r, old(db.orders), db.orders))
    ensures !HasCart(old(db.orders), caller) ==> r == Fail(Reraised(Error(CartNotFound, 404))) && db.orders == old(db.orders)
  {
    var cart := FindCart(db.orders, caller);
    if cart.None? {
      return Fail(Reraised(Error(CartNotFound, 404)));
    }
    var id := cart.value;
    if db.orders[id].products == map[] {
      return Fail(NullRead);
    }
    var products := db.orders[id].products;
    products := products - {item};
    ghost var before := db.orders;
    db.orders := db.orders[id := db.orders[id].(products := products)];
    assert IsCartLookup(before, caller, cart) && db.orders == RemoveCartLine(before, cart, item).value;
    r := Ok(());
  }

  /** What the cart query answers: an empty-cart message, or the cart row's
      public columns. */
  datatype CartView =
    | EmptyCart
    | CartContents(order: OrderId, customer: CustomerId, products: map<ItemId, int>, totalPrice: real,
                   status: string, createdAt: int)

  /** The answer of the cart query, given what the cart lookup `found`
      answered: a cart with a null products column fails the response
      model's validation, which the handler turns into a 500. */
  function CartQuery(orders: map<OrderId, Order>, found: Option<OrderId>): (r: Result<CartView>)
    requires found.Some? ==> found.value in orders
    ensures found.None? <==> r == Ok(EmptyCart)
    ensures r.Fail? <==> found.Some? && orders[found.value].products == map[]
    ensures r.Fail? ==> r.error == NullRead
    ensures r.Ok? && r.value.CartContents? ==> && found == Some(r.value.order)
                                               && r.value.customer == orders[r.value.order].customer
                                               && r.value.products == orders[r.value.order].products
                                               && r.value.totalPrice == orders[r.value.order].totalPrice
                                               && r.value.status == orders[r.value.order].status
                                               && r.value.createdAt == orders[r.value.order].createdAt
  {
    match found
    case None => Ok(EmptyCart)
    case Some(cart) =>
      var row := orders[cart];
      if row.products == map[] then Fail(NullRead)
      else Ok(CartContents(cart, row.customer, row.products, row.totalPrice, row.status, row.createdAt))
  }

  /** The read-only cart query. */
  method GetCart(db: Db, caller: CustomerId) returns (r: Result<CartView>)
    ensures exists found :: (IsCartLookup(db.orders, caller, found) && r == CartQuery(db.orders, found))
    ensures r == Ok(EmptyCart) <==> !HasCart(db.orders, caller)
    ensures r.Ok? && r.value.CartContents? ==> && IsCartOf(db.orders, caller, r.value.order)
                                               && r.value.customer == caller
                                               && r.value.status == CartStatus
                                               && r.value.products != map[]
  {
    var cart := FindCart(db.orders, caller);
    if cart.None? {
      return Ok(EmptyCart);
    }
    var row := db.orders[cart.value];
    if row.products == map[] {
      return Fail(NullRead);
    }
    r := Ok(CartContents(cart.value, row.customer, row.products, row.totalPrice, row.status, row.createdAt));
  }

  /** The worker status overwrite of this service: the caller must be a
      worker and the order must exist (both failures re-signalled as 500);
      any status string is then written. */
  function OverwriteStatus(customers: map<CustomerId, Customer>, orders: map<OrderId, Order>, caller: CustomerId,
                           id: OrderId, status: string): (r: Result<map<OrderId, Order>>)
    ensures r.Ok? <==> IsWorker(customers, caller) && id in orders
    ensures !IsWorker(customers, caller) ==> r == Fail(Reraised(Error(NotAuthorized, 403)))
    ensures IsWorker(customers, caller) && id !in orders ==> r == Fail(Reraised(Error(OrderNotFound, 404)))
    ensures r.Ok? ==> && r.value.Keys == orders.Keys
                      && r.value[id] == orders[id].(status := status)
                      && forall k :: k in orders && k != id ==> r.value[k] == orders[k]
  {
    if !IsWorker(customers, caller) then Fail(Reraised(Error(NotAuthorized, 403)))
    else if id !in orders then Fail(Reraised(Error(OrderNotFound, 404)))
    else Ok(orders[id := orders[id].(status := status)])
  }

  method UpdateOrderStatus(db: Db, caller: CustomerId, id: OrderId, status: string) returns (r: Result<()>)
    modifies db`orders
    ensures Commits(OverwriteStatus(db.customers, old(db.orders), caller, id, status), r, old(db.orders), db.orders)
  {
    if !(caller in db.customers && db.customers[caller].worker == 1) {
      return Fail(Reraised(Error(NotAuthorized, 403)));
    }
    if id !in db.orders {
      return Fail(Reraised(Error(OrderNotFound, 404)));
    }
    db.orders := db.orders[id := db.orders[id].(status := status)];
    r := Ok(());
  }
}
