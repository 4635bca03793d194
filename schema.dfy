/** The rows the order service reads and writes, the service's constants, and
    `Db`, the set of tables one request works on.

    Identifiers (UUIDs in the service) are opaque strings.  Time is an integer
    number of seconds; money and distance are exact reals. */
module Schema {
  import opened Errors

  type OrderId = string
  type CustomerId = string
  type RestaurantId = string
  type ItemId = string
  type CourierId = string
  type DiscountId = string

  /** Seconds in a minute and in a day. */
  const Minute: int := 60
  const Day: int := 24 * 60 * Minute

  /** An order may be edited up to 30 minutes after it was created. */
  const EditWindow: int := 30 * Minute
  /** An order may not be cancelled within 30 minutes of its delivery estimate. */
  const CancelMargin: int := 30 * Minute
  /** A new order is estimated to arrive 90 minutes after creation. */
  const DeliveryEstimate: int := 90 * Minute
  /** A discount code created by an administrator lives for 30 days. */
  const DiscountLifetime: int := 30 * Day

  /** Deliveries are accepted up to 20 km, at 2.5 per km. */
  const MaxDistanceKm: real := 20.0
  const FeePerKm: real := 2.5

  /** Status strings. */
  const Pending: string := "Pending"
  const InProgress: string := "In Progress"
  const Delivered: string := "Delivered"
  const Canceled: string := "Canceled"
  const CartStatus: string := "cart"

  /** The roster tag that marks a courier as available for a new order. */
  const AssignedTag: string := "Assigned"

  /** The one delivery method that needs an address. */
  const DeliveryMethod: string := "delivery"

  /** The `discount` column of an order row is written with different types by
      different handlers: a code string, a number, or nothing. */
  datatype DiscountColumn = NoDiscount | Code(code: string) | Amount(amount: real)

  /** The courier columns of an order row; all three are null when no profile
      was found. */
  datatype CourierFields = CourierFields(id: Option<CourierId>, name: Option<string>, phone: Option<string>)

  /** A row of the orders table; carts are order rows whose status is "cart". */
  datatype Order = Order(
    customer: CustomerId,
    restaurant: Option<RestaurantId>,
    products: map<ItemId, int>,
    totalPrice: real,
    discount: DiscountColumn,
    paymentMethod: string,
    deliveryMethod: string,
    address: Option<string>,
    status: string,
    createdAt: int,
    eta: Option<int>,
    deliveryTime: Option<int>,
    courier: CourierFields)

  /** A row of the discounts table. */
  datatype Discount = Discount(
    code: string,
    percentage: int,
    createdAt: int,
    expiresAt: int,
    createdBy: Option<CustomerId>)

  /** One entry of a restaurant's courier roster. */
  datatype RosterEntry = RosterEntry(courier: CourierId, tag: string)

  /** What the core reads of a restaurant row: its courier roster, in the
      order the row's map is iterated.  An empty roster stands for a null one. */
  datatype Restaurant = Restaurant(roster: seq<RosterEntry>)

  /** A courier profile. */
  datatype Courier = Courier(name: string, phone: string)

  /** What the core reads of a customer row: the integer role flags. */
  datatype Customer = Customer(worker: int, admin: int)

  /** A Python truthiness test on an optional string: absent or empty. */
  predicate Blank(s: Option<string>) {
    s.None? || s.value == ""
  }

  /** The first check of order creation: a delivery order needs an address. */
  predicate MissingAddress(deliveryMethod: string, address: Option<string>) {
    deliveryMethod == DeliveryMethod && Blank(address)
  }

  /** The single write of order creation: the planned row inserted under the new
      id (an insert under an id already present replaces that row). */
  function Insert(plan: Result<Order>, orders: map<OrderId, Order>, id: OrderId): (r: Result<map<OrderId, Order>>)
    ensures r.Ok? == plan.Ok?
    ensures plan.Fail? ==> r.error == plan.error
    ensures plan.Ok? ==> r.value.Keys == orders.Keys + {id} && r.value[id] == plan.value
    ensures plan.Ok? ==> forall k :: k in orders && k != id ==> r.value[k] == orders[k]
    ensures plan.Ok? && id !in orders ==> |r.value| == |orders| + 1
  {
    match plan
    case Ok(o) => Ok(orders[id := o])
    case Fail(e) => Fail(e)
  }

  /** The tables of one keyspace.  Handlers take a `Db` and say, with field
      frames, which tables they may write. */
  class Db {
    var orders: map<OrderId, Order>
    var discounts: map<DiscountId, Discount>
    var prices: map<(RestaurantId, ItemId), real>
    var restaurants: map<RestaurantId, Restaurant>
    var couriers: map<CourierId, Courier>
    var customers: map<CustomerId, Customer>

    constructor (orders: map<OrderId, Order>, discounts: map<DiscountId, Discount>,
                 prices: map<(RestaurantId, ItemId), real>, restaurants: map<RestaurantId, Restaurant>,
                 couriers: map<CourierId, Courier>, customers: map<CustomerId, Customer>)
      ensures this.orders == orders && this.discounts == discounts && this.prices == prices
      ensures this.restaurants == restaurants && this.couriers == couriers && this.customers == customers
    {
      this.orders := orders;
      this.discounts := discounts;
      this.prices := prices;
      this.restaurants := restaurants;
      this.couriers := couriers;
      this.customers := customers;
    }
  }
}
