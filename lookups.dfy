/** Secondary-key lookups.  The service finds a discount by its code and a
    customer's cart by (customer, status "cart") with a filtered query and
    takes the first row of the answer.  Nothing makes codes or carts unique,
    so the model lets the lookup return any matching row. */
module Lookups {
  import opened Errors
  import opened Schema

  predicate HasCode(discounts: map<DiscountId, Discount>, code: string) {
    exists id :: id in discounts && discounts[id].code == code
  }

  /** Some discount row carrying `code`, or none when no row does. */
  method FindDiscount(discounts: map<DiscountId, Discount>, code: string) returns (found: Option<DiscountId>)
    ensures found.None? <==> !HasCode(discounts, code)
    ensures found.Some? ==> found.value in discounts && discounts[found.value].code == code
  {
    if id :| id in discounts && discounts[id].code == code {
      found := Some(id);
    } else {
      found := None;
    }
  }

  /** The row `id` is a cart of `customer`. */
  predicate IsCartOf(orders: map<OrderId, Order>, customer: CustomerId, id: OrderId) {
    id in orders && orders[id].customer == customer && orders[id].status == CartStatus
  }

  predicate HasCart(orders: map<OrderId, Order>, customer: CustomerId) {
    exists id :: id in orders && IsCartOf(orders, customer, id)
  }

  /** `found` is an answer the cart lookup may give: none exactly when the
      customer has no cart, otherwise one of their carts. */
  predicate IsCartLookup(orders: map<OrderId, Order>, customer: CustomerId, found: Option<OrderId>) {
    (found.None? <==> !HasCart(orders, customer)) && (found.Some? ==> IsCartOf(orders, customer, found.value))
  }

  /** Some cart of `customer`, or none when the customer has no cart. */
  method FindCart(orders: map<OrderId, Order>, customer: CustomerId) returns (found: Option<OrderId>)
    ensures found.None? <==> !HasCart(orders, customer)
    ensures found.Some? ==> IsCartOf(orders, customer, found.value)
    ensures IsCartLookup(orders, customer, found)
  {
    if id :| id in orders && IsCartOf(orders, customer, id) {
      found := Some(id);
    } else {
      found := None;
    }
  }
}
