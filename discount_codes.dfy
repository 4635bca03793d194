/** The discount-code handlers of the earlier order service
    (`FastAPIProject/orders.py`): administrators create and delete codes, a
    purge removes expired codes, and a customer applies a code to their cart
    at most once. */
module DiscountCodes {
  import opened Errors
  import opened Schema
  import opened Access
  import opened Pricing
  import opened Lookups

  /** The discounts table without its expired rows; a row expiring exactly
      now is kept. */
  function Unexpired(discounts: map<DiscountId, Discount>, now: int): (r: map<DiscountId, Discount>)
    ensures forall id :: id in r <==> id in discounts && discounts[id].expiresAt >= now
    ensures forall id :: id in r ==> r[id] == discounts[id]
  {
    map id | id in discounts && discounts[id].expiresAt >= now :: discounts[id]
  }

  /** The rows of `start` still present while the purge loop has `pending`
      rows left to examine. */
  function Purging(start: map<DiscountId, Discount>, pending: set<DiscountId>, now: int): map<DiscountId, Discount> {
    map id | id in start && (id in pending || start[id].expiresAt >= now) :: start[id]
  }

  /** The purge: one pass over the rows read at the start, deleting each one
      whose expiry lies before `now`. */
  method PurgeExpired(db: Db, now: int)
    modifies db`discounts
    ensures db.discounts == Unexpired(old(db.discounts), now)
  {
    var rows := db.discounts;
    var pending := rows.Keys;
    while pending != {}
      invariant pending <= rows.Keys
      invariant db.discounts == Purging(rows, pending, now)
      decreases pending
    {
      var id :| id in pending;
      if rows[id].expiresAt < now {
        db.discounts := db.discounts - {id};
      }
      pending := pending - {id};
    }
    assert Purging(rows, {}, now) == Unexpired(rows, now);
  }

  /** Purging twice is purging once, and after a purge no expired row is
      left. */
  lemma PurgeIdempotent(discounts: map<DiscountId, Discount>, now: int)
    ensures Unexpired(Unexpired(discounts, now), now) == Unexpired(discounts, now)
    ensures forall id :: id in Unexpired(discounts, now) ==> Unexpired(discounts, now)[id].expiresAt >= now
  {
  }

  /** No two rows carry the same code. */
  predicate UniqueCodes(discounts: map<DiscountId, Discount>) {
    forall a, b :: a in discounts && b in discounts && discounts[a].code == discounts[b].code ==> a == b
  }

  /** The creation decision: administrators only, a code already in use is
      refused, and the new row expires 30 days after its creation whatever
      expiry the request carried. */
  function NewCode(customers: map<CustomerId, Customer>, discounts: map<DiscountId, Discount>, caller: CustomerId,
                   code: string, percentage: int, now: int, id: DiscountId): (r: Result<map<DiscountId, Discount>>)
    ensures r.Ok? <==> IsAdmin(customers, caller) && !HasCode(discounts, code)
    ensures !IsAdmin(customers, caller) ==> r == Fail(Error(NotAuthorized, 403))
    ensures IsAdmin(customers, caller) && HasCode(discounts, code) ==> r == Fail(Error(DiscountCodeExists, 400))
    ensures r.Ok? ==> && r.value.Keys == discounts.Keys + {id}
                      && r.value[id].code == code && r.value[id].percentage == percentage
                      && r.value[id].createdAt == now && r.value[id].expiresAt == now + DiscountLifetime
                      && r.value[id].createdBy == Some(caller)
                      && forall k :: k in discounts && k != id ==> r.value[k] == discounts[k]
  {
    if !IsAdmin(customers, caller) then Fail(Error(NotAuthorized, 403))
    else if HasCode(discounts, code) then Fail(Error(DiscountCodeExists, 400))
    else Ok(discounts[id := Discount(code, percentage, now, now + DiscountLifetime, Some(caller))])
  }

  /** The create handler; the reply echoes the stored row.  `requestedExpiry`
      is accepted and ignored. */
  method CreateDiscount(db: Db, caller: CustomerId, code: string, percentage: int, requestedExpiry: Option<int>,
                        now: int, id: DiscountId) returns (r: Result<Discount>)
    modifies db`discounts
    ensures Commits(NewCode(db.customers, old(db.discounts), caller, code, percentage, now, id),
                    r, old(db.discounts), db.discounts)
    ensures r.Ok? ==> r.value == db.discounts[id]
  {
    if !(caller in db.customers && db.customers[caller].admin == 1) {
      return Fail(Error(NotAuthorized, 403));
    }
    var existing := FindDiscount(db.discounts, code);
    if existing.Some? {
      return Fail(Error(DiscountCodeExists, 400));
    }
    var row := Discount(code, percentage, now, now + DiscountLifetime, Some(caller));
    db.discounts := db.discounts[id := row];
    r := Ok(row);
  }

  /** A second creation of the same code is refused, and creation keeps codes
      unique. */
  lemma CreateTwiceRefused(customers: map<CustomerId, Customer>, discounts: map<DiscountId, Discount>,
                           caller: CustomerId, code: string, p: int, q: int, now: int, later: int,
                           id: DiscountId, id2: DiscountId)
    requires NewCode(customers, discounts, caller, code, p, now, id).Ok?
    ensures NewCode(customers, NewCode(customers, discounts, caller, code, p, now, id).value, caller, code, q, later, id2)
            == Fail(Error(DiscountCodeExists, 400))
    ensures UniqueCodes(discounts) ==> UniqueCodes(NewCode(customers, discounts, caller, code, p, now, id).value)
  {
    var after := NewCode(customers, discounts, caller, code, p, now, id).value;
    assert id in after && after[id].code == code;
  }

  /** The rows the delete handler may remove: any row carrying the code. */
  predicate IsCodeRow(discounts: map<DiscountId, Discount>, code: string, id: DiscountId) {
    id in discounts && discounts[id].code == code
  }

  /** The delete handler: administrators only (403), an unknown code is 404,
      otherwise the row the lookup returned is deleted. */
  method DeleteDiscountCode(db: Db, caller: CustomerId, code: string) returns (r: Result<()>)
    modifies db`discounts
    ensures r.Ok? <==> IsAdmin(db.customers, caller) && HasCode(old(db.discounts), code)
    ensures !IsAdmin(db.customers, caller) ==> r == Fail(Error(NotAuthorized, 403))
    ensures IsAdmin(db.customers, caller) && !HasCode(old(db.discounts), code) ==> r == Fail(Error(DiscountNotFound, 404))
    ensures r.Fail? ==> db.discounts == old(db.discounts)
    ensures r.Ok? ==> exists id :: (IsCodeRow(old(db.discounts), code, id) && db.discounts == old(db.discounts) - {id})
  {
    if !(caller in db.customers && db.customers[caller].admin == 1) {
      return Fail(Error(NotAuthorized, 403));
    }
    var found := FindDiscount(db.discounts, code);
    if found.None? {
      return Fail(Error(DiscountNotFound, 404));
    }
    ghost var before := db.discounts;
    db.discounts := db.discounts - {found.value};
    assert IsCodeRow(before, code, found.value) && db.discounts == before - {found.value};
    r := Ok(());
  }

  /** Deleting a code just created under a fresh id removes exactly that row
      and gives back the table as it was. */
  lemma DeleteUndoesCreate(customers: map<CustomerId, Customer>, discounts: map<DiscountId, Discount>,
                           caller: CustomerId, code: string, p: int, now: int, id: DiscountId, victim: DiscountId)
    requires id !in discounts
    requires NewCode(customers, discounts, caller, code, p, now, id).Ok?
    requires IsCodeRow(NewCode(customers, discounts, caller, code, p, now, id).value, code, victim)
    ensures victim == id
    ensures NewCode(customers, discounts, caller, code, p, now, id).value - {victim} == discounts
  {
  }

  /** The reply of the apply handler. */
  datatype Quote = Quote(originalPrice: real, percentage: int, discountAmount: real, finalPrice: real)

  /** The price arithmetic of the apply handler: the discount amount is the
      percentage of the total, and the final price what remains. */
  function QuoteFor(total: real, percentage: int): (q: Quote)
    ensures q.originalPrice == total && q.percentage == percentage
    ensures q.discountAmount + q.finalPrice == total
    ensures q.finalPrice == ApplyPercentage(total, percentage)
    ensures 0 <= percentage <= 100 && total >= 0.0 ==> 0.0 <= q.finalPrice <= total && 0.0 <= q.discountAmount <= total
  {
    var amount := total * percentage as real / 100.0;
    Quote(total, percentage, amount, total - amount)
  }

  /** The cart update of the apply handler: refused when the cart's discount
      column holds anything but the number 0, otherwise the discount column
      takes the percentage and the total the discounted price. */
  function ApplyToCart(orders: map<OrderId, Order>, cart: OrderId, percentage: int): (r: Result<map<OrderId, Order>>)
    requires cart in orders
    ensures r.Ok? <==> orders[cart].discount == Amount(0.0)
    ensures r.Fail? ==> r.error == Error(DiscountAlreadyApplied, 400)
    ensures r.Ok? ==> && r.value.Keys == orders.Keys
                      && r.value[cart] == orders[cart].(discount := Amount(percentage as real),
                                                        totalPrice := QuoteFor(orders[cart].totalPrice, percentage).finalPrice)
                      && forall k :: k in orders && k != cart ==> r.value[k] == orders[k]
  {
    if orders[cart].discount != Amount(0.0) then Fail(Error(DiscountAlreadyApplied, 400))
    else
      var total := orders[cart].totalPrice;
      Ok(orders[cart := orders[cart].(discount := Amount(percentage as real),
                                      totalPrice := QuoteFor(total, percentage).finalPrice)])
  }

  /** A code applies to a cart once: a second application to the same cart
      is refused exactly when the first percentage was not zero (a 0% code
      writes back the 0 the check looks for). */
  lemma SecondApplyRefused(orders: map<OrderId, Order>, cart: OrderId, p: int, q: int)
    requires cart in orders && ApplyToCart(orders, cart, p).Ok?
    ensures cart in ApplyToCart(orders, cart, p).value
    ensures ApplyToCart(ApplyToCart(orders, cart, p).value, cart, q).Fail? <==> p != 0
  {
  }

  /** The apply handler.  The purge runs first and stays done whatever
      follows; then the code is looked up among the remaining rows (404), the
      caller's cart is looked up (404), and the cart is updated as
      `ApplyToCart` says. */
  method ApplyDiscount(db: Db, caller: CustomerId, code: string, now: int) returns (r: Result<Quote>)
    modifies db`discounts, db`orders
    ensures db.discounts == Unexpired(old(db.discounts), now)
    ensures !HasCode(db.discounts, code) ==> r == Fail(Error(DiscountNotFound, 404)) && db.orders == old(db.orders)
    ensures HasCode(db.discounts, code) && !HasCart(old(db.orders), caller)
            ==> r == Fail(Error(CartNotFound, 404)) && db.orders == old(db.orders)
    ensures r.Fail? ==> db.orders == old(db.orders)
    ensures r.Ok? ==> exists row :: (IsCodeRow(db.discounts, code, row) && exists cart :: (
                        && IsCartOf(old(db.orders), caller, cart)
                        && ApplyToCart(old(db.orders), cart, db.discounts[row].percentage) == Ok(db.orders)
                        && r.value == QuoteFor(old(db.orders)[cart].totalPrice, db.discounts[row].percentage)))
    ensures r.Fail? && r.error.kind == DiscountAlreadyApplied
            ==> exists cart :: (IsCartOf(old(db.orders), caller, cart) && old(db.orders)[cart].discount != Amount(0.0))
    ensures HasCode(db.discounts, code) && HasCart(old(db.orders), caller)
            ==> exists row, cart :: (&& IsCodeRow(db.discounts, code, row)
                                     && IsCartOf(old(db.orders), caller, cart)
                                     && Commits(ApplyToCart(old(db.orders), cart, db.discounts[row].percentage),
                                                r, old(db.orders), db.orders))
  {
    PurgeExpired(db, now);
    var found := FindDiscount(db.discounts, code);
    if found.None? {
      return Fail(Error(DiscountNotFound, 404));
    }
    var discount := db.discounts[found.value];
    var cart := FindCart(db.orders, caller);
    if cart.None? {
      return Fail(Error(CartNotFound, 404));
    }
    var row := db.orders[cart.value];
    if row.discount != Amount(0.0) {
      assert IsCodeRow(db.discounts, code, found.value) && IsCartOf(db.orders, caller, cart.value);
      return Fail(Error(DiscountAlreadyApplied, 400));
    }
    var quote := QuoteFor(row.totalPrice, discount.percentage);
    ghost var before := db.orders;
    db.orders := db.orders[cart.value := row.(discount := Amount(discount.percentage as real), totalPrice := quote.finalPrice)];
    assert IsCodeRow(db.discounts, code, found.value);
    assert IsCartOf(before, caller, cart.value);
    assert ApplyToCart(before, cart.value, discount.percentage) == Ok(db.orders);
    r := Ok(quote);
  }

  /** A code that applies has not expired. */
  lemma AppliedCodeUnexpired(discounts: map<DiscountId, Discount>, now: int, code: string, row: DiscountId)
    requires IsCodeRow(Unexpired(discounts, now), code, row)
    ensures row in discounts && discounts[row].code == code && discounts[row].expiresAt >= now
  {
  }
}
