/** Editing and cancelling an order.  Both order services implement these two
    handlers with the same logic (the earlier one issues its ownership select
    without ALLOW FILTERING): the caller must own the order, an edit must
    come within 30 minutes of creation and change at least one of products,
    delivery method and address (the price is not recomputed), and a
    cancellation must come more than 30 minutes before the delivery estimate
    and deletes the row. */
module Lifecycle {
  import opened Errors
  import opened Schema

  /** The body of an edit request; a field counts as supplied when it is
      present and non-empty. */
  datatype EditRequest = EditRequest(
    order: OrderId,
    products: Option<map<ItemId, int>>,
    deliveryMethod: Option<string>,
    address: Option<string>)

  /** One `SET column = value` clause of the edit's UPDATE statement. */
  datatype FieldUpdate = SetProducts(products: map<ItemId, int>) | SetDeliveryMethod(deliveryMethod: string) | SetAddress(address: string)

  predicate ProductsSupplied(req: EditRequest) {
    req.products.Some? && req.products.value != map[]
  }

  predicate MethodSupplied(req: EditRequest) {
    !Blank(req.deliveryMethod)
  }

  predicate AddressSupplied(req: EditRequest) {
    !Blank(req.address)
  }

  predicate NothingSupplied(req: EditRequest) {
    !ProductsSupplied(req) && !MethodSupplied(req) && !AddressSupplied(req)
  }

  /** The ownership lookup: a row with this id whose customer is the caller. */
  predicate OwnedBy(orders: map<OrderId, Order>, id: OrderId, caller: CustomerId) {
    id in orders && orders[id].customer == caller
  }

  /** The order after an edit: each supplied field replaced, everything else,
      the total price included, as it was. */
  function Edited(o: Order, req: EditRequest): (e: Order)
    ensures e.products == if ProductsSupplied(req) then req.products.value else o.products
    ensures e.deliveryMethod == if MethodSupplied(req) then req.deliveryMethod.value else o.deliveryMethod
    ensures e.address == if AddressSupplied(req) then req.address else o.address
    ensures e.(products := o.products, deliveryMethod := o.deliveryMethod, address := o.address) == o
  {
    o.(products := if ProductsSupplied(req) then req.products.value else o.products,
       deliveryMethod := if MethodSupplied(req) then req.deliveryMethod.value else o.deliveryMethod,
       address := if AddressSupplied(req) then req.address else o.address)
  }

  function Apply(o: Order, u: FieldUpdate): Order {
    match u
    case SetProducts(p) => o.(products := p)
    case SetDeliveryMethod(m) => o.(deliveryMethod := m)
    case SetAddress(a) => o.(address := Some(a))
  }

  /** The row after an UPDATE with the given SET clauses, applied in order. */
  function ApplyUpdates(o: Order, updates: seq<FieldUpdate>): Order
    decreases |updates|
  {
    if updates == [] then o else ApplyUpdates(Apply(o, updates[0]), updates[1..])
  }

  /** The clause list of the edit handler, built step by step: one clause per
      supplied field, in the order products, delivery method, address.  Its
      effect on any row is exactly `Edited`, and it is empty exactly when
      nothing was supplied. */
  method CollectUpdates(req: EditRequest) returns (updates: seq<FieldUpdate>)
    ensures updates == [] <==> NothingSupplied(req)
    ensures |updates| <= 3
    ensures forall o :: ApplyUpdates(o, updates) == Edited(o, req)
  {
    updates := [];
    if ProductsSupplied(req) {
      updates := updates + [SetProducts(req.products.value)];
    }
    if MethodSupplied(req) {
      updates := updates + [SetDeliveryMethod(req.deliveryMethod.value)];
    }
    if AddressSupplied(req) {
      updates := updates + [SetAddress(req.address.value)];
    }
    forall o ensures ApplyUpdates(o, updates) == Edited(o, req) {
      ApplyUpdatesMatchesEdit(o, req, updates);
    }
  }

  lemma ApplyUpdatesMatchesEdit(o: Order, req: EditRequest, updates: seq<FieldUpdate>)
    requires updates == (if ProductsSupplied(req) then [SetProducts(req.products.value)] else [])
                      + (if MethodSupplied(req) then [SetDeliveryMethod(req.deliveryMethod.value)] else [])
                      + (if AddressSupplied(req) then [SetAddress(req.address.value)] else [])
    ensures ApplyUpdates(o, updates) == Edited(o, req)
  {
    var p := if ProductsSupplied(req) then [SetProducts(req.products.value)] else [];
    var m := if MethodSupplied(req) then [SetDeliveryMethod(req.deliveryMethod.value)] else [];
    var a := if AddressSupplied(req) then [SetAddress(req.address.value)] else [];
    ApplyUpdatesAppend(o, p, m + a);
    ApplyUpdatesAppend(ApplyUpdates(o, p), m, a);
    assert p + m + a == p + (m + a);
  }

  lemma {:induction false} ApplyUpdatesAppend(o: Order, xs: seq<FieldUpdate>, ys: seq<FieldUpdate>)
    ensures ApplyUpdates(o, xs + ys) == ApplyUpdates(ApplyUpdates(o, xs), ys)
    decreases |xs|
  {
    if xs != [] {
      assert (xs + ys)[1..] == xs[1..] + ys;
      ApplyUpdatesAppend(Apply(o, xs[0]), xs[1..], ys);
    } else {
      assert xs + ys == ys;
    }
  }

  /** The edit handler's decision: the new orders table or the error raised. */
  function Edit(orders: map<OrderId, Order>, req: EditRequest, caller: CustomerId, now: int): (r: Result<map<OrderId, Order>>)
    ensures r.Ok? <==> OwnedBy(orders, req.order, caller) && now <= orders[req.order].createdAt + EditWindow
                       && !NothingSupplied(req)
    ensures !OwnedBy(orders, req.order, caller) ==> r == Fail(Error(OrderNotFoundOrUnauthorized, 404))
    ensures OwnedBy(orders, req.order, caller) && now > orders[req.order].createdAt + EditWindow
            ==> r == Fail(Error(EditWindowClosed, 400))
    ensures OwnedBy(orders, req.order, caller) && now <= orders[req.order].createdAt + EditWindow && NothingSupplied(req)
            ==> r == Fail(Error(NoFieldsToUpdate, 400))
    ensures r.Ok? ==> r.value.Keys == orders.Keys
                      && r.value[req.order] == Edited(orders[req.order], req)
                      && r.value[req.order].totalPrice == orders[req.order].totalPrice
                      && forall id :: id in orders && id != req.order ==> r.value[id] == orders[id]
  {
    if !OwnedBy(orders, req.order, caller) then Fail(Error(OrderNotFoundOrUnauthorized, 404))
    else if now > orders[req.order].createdAt + EditWindow then Fail(Error(EditWindowClosed, 400))
    else if NothingSupplied(req) then Fail(Error(NoFieldsToUpdate, 400))
    else Ok(orders[req.order := Edited(orders[req.order], req)])
  }

  /** The edit handler.  Both order services have this handler.  The earlier one issues its
      ownership select without ALLOW FILTERING; the model treats that select
      as a working lookup. */
  method UpdateOrder(db: Db, req: EditRequest, caller: CustomerId, now: int) returns (r: Result<()>)
    modifies db`orders
    ensures Commits(Edit(old(db.orders), req, caller, now), r, old(db.orders), db.orders)
  {
    if !(req.order in db.orders && db.orders[req.order].customer == caller) {
      return Fail(Error(OrderNotFoundOrUnauthorized, 404));
    }
    var row := db.orders[req.order];
    if now > row.createdAt + EditWindow {
      return Fail(Error(EditWindowClosed, 400));
    }
    var updates := CollectUpdates(req);
    if updates == [] {
      return Fail(Error(NoFieldsToUpdate, 400));
    }
    db.orders := db.orders[req.order := ApplyUpdates(row, updates)];
    r := Ok(());
  }

  /** The edit window is closed on the right: an edit at exactly 30 minutes
      after creation is accepted, one second later it is refused. */
  lemma EditWindowBoundary(orders: map<OrderId, Order>, req: EditRequest, caller: CustomerId)
    requires OwnedBy(orders, req.order, caller) && !NothingSupplied(req)
    ensures Edit(orders, req, caller, orders[req.order].createdAt + EditWindow).Ok?
    ensures Edit(orders, req, caller, orders[req.order].createdAt + EditWindow + 1) == Fail(Error(EditWindowClosed, 400))
  {
  }

  /** The cancel handler's decision.  A row without a delivery estimate (a
      cart) makes the window arithmetic fail with an internal error. */
  function Cancel(orders: map<OrderId, Order>, id: OrderId, caller: CustomerId, now: int): (r: Result<map<OrderId, Order>>)
    ensures r.Ok? <==> OwnedBy(orders, id, caller) && orders[id].eta.Some? && now <= orders[id].eta.value - CancelMargin
    ensures !OwnedBy(orders, id, caller) ==> r == Fail(Error(OrderNotFoundOrUnauthorized, 404))
    ensures OwnedBy(orders, id, caller) && orders[id].eta.None? ==> r == Fail(Error(MissingEstimate, 500))
    ensures OwnedBy(orders, id, caller) && orders[id].eta.Some? && now > orders[id].eta.value - CancelMargin
            ==> r == Fail(Error(CancelWindowClosed, 400))
    ensures r.Ok? ==> r.value.Keys == orders.Keys - {id} && |r.value| == |orders| - 1
                      && forall k :: k in r.value ==> r.value[k] == orders[k]
  {
    if !OwnedBy(orders, id, caller) then Fail(Error(OrderNotFoundOrUnauthorized, 404))
    else if orders[id].eta.None? then Fail(Error(MissingEstimate, 500))
    else if now > orders[id].eta.value - CancelMargin then Fail(Error(CancelWindowClosed, 400))
    else
      assert orders.Keys - {id} + {id} == orders.Keys;
      Ok(orders - {id})
  }

  /** The cancel handler.  Both order services have this handler.  The earlier one issues its
      ownership select without ALLOW FILTERING; the model treats that select
      as a working lookup. */
  method CancelOrder(db: Db, id: OrderId, caller: CustomerId, now: int) returns (r: Result<()>)
    modifies db`orders
    ensures Commits(Cancel(old(db.orders), id, caller, now), r, old(db.orders), db.orders)
  {
    if !(id in db.orders && db.orders[id].customer == caller) {
      return Fail(Error(OrderNotFoundOrUnauthorized, 404));
    }
    var row := db.orders[id];
    if row.eta.None? {
      return Fail(Error(MissingEstimate, 500));
    }
    if now > row.eta.value - CancelMargin {
      return Fail(Error(CancelWindowClosed, 400));
    }
    db.orders := db.orders - {id};
    r := Ok(());
  }

  /** Cancelling is allowed up to exactly 30 minutes before the estimate and
      refused one second later. */
  lemma CancelWindowBoundary(orders: map<OrderId, Order>, id: OrderId, caller: CustomerId)
    requires OwnedBy(orders, id, caller) && orders[id].eta.Some?
    ensures Cancel(orders, id, caller, orders[id].eta.value - CancelMargin).Ok?
    ensures Cancel(orders, id, caller, orders[id].eta.value - CancelMargin + 1) == Fail(Error(CancelWindowClosed, 400))
  {
  }
}
