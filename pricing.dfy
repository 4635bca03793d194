/** The price formula of order creation: the distance limit and delivery fee,
    the line-item subtotal over the restaurant's price rows, and the
    percentage discount. */
module Pricing {
  import opened Errors
  import opened Schema

  /** The delivery leg: refused above the distance limit (the limit itself is
      accepted), otherwise charged `FeePerKm` per kilometre. */
  function DeliveryFee(distanceKm: real): (r: Result<real>)
    ensures r.Ok? <==> distanceKm <= MaxDistanceKm
    ensures r.Fail? ==> r.error == Error(OutOfRange, 400)
    ensures r.Ok? ==> r.value == 2.5 * distanceKm
    ensures r.Ok? && distanceKm >= 0.0 ==> 0.0 <= r.value <= FeePerKm * MaxDistanceKm
  {
    if distanceKm > MaxDistanceKm then Fail(Error(OutOfRange, 400))
    else Ok(FeePerKm * distanceKm)
  }

  /** Takes `percentage` percent off `amount`, as `amount -= amount * (p / 100)`
      does with true division. */
  function ApplyPercentage(amount: real, percentage: int): (r: real)
    ensures r == amount * (1.0 - percentage as real / 100.0)
    ensures 0 <= percentage <= 100 && amount >= 0.0 ==> 0.0 <= r <= amount
    ensures percentage == 0 ==> r == amount
  {
    var fraction := percentage as real / 100.0;
    if 0 <= percentage <= 100 && amount >= 0.0 then
      ScaledDown(amount, fraction);
      amount - amount * fraction
    else amount - amount * fraction
  }

  /** A non-negative amount scaled by a fraction between 0 and 1 stays
      between 0 and the amount. */
  lemma ScaledDown(amount: real, fraction: real)
    requires amount >= 0.0 && 0.0 <= fraction <= 1.0
    ensures 0.0 <= amount * fraction <= amount
  {
    assert amount * (1.0 - fraction) >= 0.0;
  }

  /** Every item of the request has a price row for the restaurant. */
  predicate AllPriced(products: map<ItemId, int>, prices: map<(RestaurantId, ItemId), real>, restaurant: RestaurantId) {
    forall item :: item in products ==> (restaurant, item) in prices
  }

  /** Unit price times quantity for one line of the request. */
  function LineTotal(products: map<ItemId, int>, prices: map<(RestaurantId, ItemId), real>,
                     restaurant: RestaurantId, item: ItemId): real
    requires item in products && (restaurant, item) in prices
  {
    prices[(restaurant, item)] * products[item] as real
  }

  ghost function PickItem(products: map<ItemId, int>): (item: ItemId)
    requires products != map[]
    ensures item in products
  {
    var item :| item in products; item
  }

  /** The sum of the line totals, in no particular order: the request's
      products are a map, and `SubtotalRemove` shows that the order in which
      its lines are visited does not matter. */
  ghost function Subtotal(products: map<ItemId, int>, prices: map<(RestaurantId, ItemId), real>,
                          restaurant: RestaurantId): real
    requires AllPriced(products, prices, restaurant)
    decreases |products|
  {
    if products == map[] then 0.0
    else
      var item := PickItem(products);
      assert |products - {item}| == |products| - 1;
      LineTotal(products, prices, restaurant, item) + Subtotal(products - {item}, prices, restaurant)
  }

  /** Any line may be taken out of the sum first. */
  lemma {:induction false} SubtotalRemove(products: map<ItemId, int>, prices: map<(RestaurantId, ItemId), real>,
                                          restaurant: RestaurantId, item: ItemId)
    requires AllPriced(products, prices, restaurant) && item in products
    ensures Subtotal(products, prices, restaurant)
         == LineTotal(products, prices, restaurant, item) + Subtotal(products - {item}, prices, restaurant)
    decreases |products|
  {
    var first := PickItem(products);
    if first != item {
      var rest := products - {first};
      assert |rest| == |products| - 1;
      SubtotalRemove(rest, prices, restaurant, item);
      var without := products - {item};
      assert |without| == |products| - 1;
      SubtotalRemove(without, prices, restaurant, first);
      assert rest - {item} == without - {first};
    }
  }

  /** The restriction of the request to the lines already visited. */
  function Visited(products: map<ItemId, int>, done: set<ItemId>): (m: map<ItemId, int>)
    ensures m.Keys == products.Keys * done
  {
    map item | item in products && item in done :: products[item]
  }

  /** The pricing loop of order creation: every line of the request is looked
      up in the restaurant's price rows and its unit price times quantity is
      added to the running total; the first line without a price row stops the
      loop and is reported. */
  method ComputeSubtotal(products: map<ItemId, int>, prices: map<(RestaurantId, ItemId), real>,
                         restaurant: RestaurantId)
    returns (missing: Option<ItemId>, total: real)
    ensures missing.None? <==> AllPriced(products, prices, restaurant)
    ensures missing.Some? ==> missing.value in products && (restaurant, missing.value) !in prices
    ensures missing.None? ==> total == Subtotal(products, prices, restaurant)
  {
    total := 0.0;
    var todo := products.Keys;
    while todo != {}
      invariant todo <= products.Keys
      invariant AllPriced(Visited(products, products.Keys - todo), prices, restaurant)
      invariant total == Subtotal(Visited(products, products.Keys - todo), prices, restaurant)
      decreases todo
    {
      var item :| item in todo;
      if (restaurant, item) !in prices {
        return Some(item), total;
      }
      var before := Visited(products, products.Keys - todo);
      var after := Visited(products, products.Keys - (todo - {item}));
      assert after - {item} == before;
      SubtotalRemove(after, prices, restaurant, item);
      total := total + prices[(restaurant, item)] * products[item] as real;
      todo := todo - {item};
    }
    assert Visited(products, products.Keys - todo) == products;
    missing := None;
  }
}
