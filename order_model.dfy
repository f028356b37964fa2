/** The order document: snapshotted lines, a shipping address, a payment record,
    a status drawn from a fixed set and two first-write timestamps. */
module OrderModel {
  import opened Common

  datatype OrderItem = OrderItem(product: ProductId, name: string, price: real, quantity: int, image: string)

  datatype ShippingAddress = ShippingAddress(
    fullName: string, streetAddress: string, city: string,
    state: string, zipCode: string, phoneNumber: string)

  /** Opaque result of the payment provider; only stored. */
  datatype PaymentResult = PaymentResult(id: string, status: string)

  datatype Status = Pending | Shipped | Delivered

  datatype Order = Order(
    id: OrderId,
    user: UserId,
    clerkId: ClerkId,
    orderItems: seq<OrderItem>,
    shippingAddress: ShippingAddress,
    paymentResult: PaymentResult,
    totalPrice: real,
    status: Status,
    shippedAt: Option<Time>,
    deliveredAt: Option<Time>)

  /** Product, name and image are required, price at least 0, quantity at least 1. */
  predicate ItemValid(item: OrderItem)
  {
    item.name != "" && item.image != "" && item.price >= 0.0 && item.quantity >= 1
  }

  /** Every address field is required. */
  predicate AddressValid(a: ShippingAddress)
  {
    && a.fullName != "" && a.streetAddress != "" && a.city != ""
    && a.state != "" && a.zipCode != "" && a.phoneNumber != ""
  }

  /** The whole order schema, as `Order.create` checks it. */
  predicate OrderValid(o: Order)
  {
    && o.clerkId != ""
    && (forall i :: 0 <= i < |o.orderItems| ==> ItemValid(o.orderItems[i]))
    && AddressValid(o.shippingAddress)
    && o.totalPrice >= 0.0
  }

  /** The stored spelling of each status. */
  function StatusName(s: Status): string
  {
    match s
    case Pending => "pending"
    case Shipped => "shipped"
    case Delivered => "delivered"
  }

  /** Membership in the enum `["pending", "shipped", "delivered"]`. */
  function ParseStatus(s: string): (r: Option<Status>)
    ensures r.Some? <==> s == "pending" || s == "shipped" || s == "delivered"
  {
    if s == "pending" then Some(Pending)
    else if s == "shipped" then Some(Shipped)
    else if s == "delivered" then Some(Delivered)
    else None
  }

  /** Parsing and spelling are inverse on the enum. */
  lemma ParseStatusRoundTrip(st: Status, s: string)
    ensures ParseStatus(StatusName(st)) == Some(st)
    ensures ParseStatus(s) == Some(st) ==> s == StatusName(st)
  {
  }

  /** An order as `Order.create` stores it: status at its default, no timestamps. */
  function NewOrder(id: OrderId, p: Principal, items: seq<OrderItem>, address: ShippingAddress,
                    payment: PaymentResult, totalPrice: real): (o: Order)
    ensures o.status == Pending && o.shippedAt.None? && o.deliveredAt.None?
    ensures o.clerkId == p.clerkId && o.user == p.userId && o.orderItems == items
    ensures o.shippingAddress == address && o.paymentResult == payment && o.totalPrice == totalPrice
  {
    Order(id, p.userId, p.clerkId, items, address, payment, totalPrice, Pending, None, None)
  }

  predicate IdsDistinct(orders: seq<Order>)
  {
    forall i, j :: 0 <= i < j < |orders| ==> orders[i].id != orders[j].id
  }

  predicate HasId(orders: seq<Order>, id: OrderId)
  {
    exists i :: 0 <= i < |orders| && orders[i].id == id
  }

  /** `Order.findById`: the index of the order with this id. */
  function FindOrder(orders: seq<Order>, id: OrderId): (r: Option<nat>)
    ensures r.Some? ==> r.value < |orders| && orders[r.value].id == id
    ensures r.None? <==> !HasId(orders, id)
  {
    if orders == [] then None
    else if orders[|orders| - 1].id == id then Some(|orders| - 1)
    else FindOrder(orders[..|orders| - 1], id)
  }
}
