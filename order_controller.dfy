/** Order placement and the principal's order history. */
module OrderController {
  import opened Common
  import opened OrderModel
  import ProductModel
  import ReviewModel
  import Store

  /** A line passes the pre-insert check: its product exists and has at least the
      line's quantity in stock. */
  predicate LineOk(products: map<ProductId, ProductModel.Product>, item: OrderItem)
  {
    item.product in products && products[item.product].stock >= item.quantity
  }

  /** The answer to a line that fails the check. */
  function LineError(products: map<ProductId, ProductModel.Product>, item: OrderItem): Error
  {
    if item.product !in products then NotFound("Product " + item.name + " not found")
    else BadRequest("Insufficient stock for " + products[item.product].name)
  }

  /** The error of the first failing line, checked front to back, each against the stock
      as it was before the order. */
  function FirstLineError(products: map<ProductId, ProductModel.Product>, items: seq<OrderItem>): (r: Option<Error>)
    ensures r.None? <==> forall i :: 0 <= i < |items| ==> LineOk(products, items[i])
    ensures r.Some? ==> exists i ::
      && 0 <= i < |items| && !LineOk(products, items[i])
      && (forall j :: 0 <= j < i ==> LineOk(products, items[j]))
      && r.value == LineError(products, items[i])
  {
    if items == [] then None
    else if !LineOk(products, items[0]) then Some(LineError(products, items[0]))
    else
      var rest := FirstLineError(products, items[1..]);
      assert forall i :: 1 <= i < |items| ==> items[i] == items[1..][i - 1];
      if rest.Some? then
        var k :| 0 <= k < |items[1..]| && !LineOk(products, items[1..][k])
          && (forall j :: 0 <= j < k ==> LineOk(products, items[1..][j])) && rest.value == LineError(products, items[1..][k]);
        assert forall j :: 0 <= j < k + 1 ==> LineOk(products, items[j]);
        rest
      else rest
  }

  /** The validation loop of createOrder: each line in turn, stopping at the first failure. */
  method CheckLines(products: map<ProductId, ProductModel.Product>, items: seq<OrderItem>) returns (r: Option<Error>)
    ensures r == FirstLineError(products, items)
  {
    var i := 0;
    while i < |items|
      invariant 0 <= i <= |items|
      invariant FirstLineError(products, items) == FirstLineError(products, items[i..])
    {
      var item := items[i];
      if item.product !in products {
        return Some(NotFound("Product " + item.name + " not found"));
      }
      if products[item.product].stock < item.quantity {
        return Some(BadRequest("Insufficient stock for " + products[item.product].name));
      }
      assert items[i..][1..] == items[i + 1..];
      i := i + 1;
    }
    return None;
  }

  /** The total quantity the lines take of one product. */
  function QuantityOf(items: seq<OrderItem>, pid: ProductId): int
  {
    if items == [] then 0
    else QuantityOf(items[..|items| - 1], pid)
         + (if items[|items| - 1].product == pid then items[|items| - 1].quantity else 0)
  }

  /** The product store after the decrement loop: each line's `$inc` of minus its
      quantity, applied in order; a missing product is skipped. */
  function Decremented(products: map<ProductId, ProductModel.Product>, items: seq<OrderItem>): (r: map<ProductId, ProductModel.Product>)
    ensures r.Keys == products.Keys
  {
    if items == [] then products
    else
      var rest := Decremented(products, items[..|items| - 1]);
      var item := items[|items| - 1];
      if item.product in rest then rest[item.product := rest[item.product].(stock := rest[item.product].stock - item.quantity)]
      else rest
  }

  /** Each product's stock drops by exactly the quantities of its lines; nothing else
      about any product changes. */
  lemma {:induction false} DecrementedStock(products: map<ProductId, ProductModel.Product>, items: seq<OrderItem>, pid: ProductId)
    requires pid in products
    ensures Decremented(products, items)[pid] ==
            products[pid].(stock := products[pid].stock - QuantityOf(items, pid))
  {
    if items != [] {
      DecrementedStock(products, items[..|items| - 1], pid);
    }
  }

  lemma {:induction false} QuantityOfAbsent(items: seq<OrderItem>, pid: ProductId)
    requires forall i :: 0 <= i < |items| ==> items[i].product != pid
    ensures QuantityOf(items, pid) == 0
  {
    if items != [] {
      QuantityOfAbsent(items[..|items| - 1], pid);
    }
  }

  /** When the product occurs on exactly one line, it gives up that line's quantity. */
  lemma {:induction false} QuantityOfSingle(items: seq<OrderItem>, pid: ProductId, k: nat)
    requires k < |items| && items[k].product == pid
    requires forall i :: 0 <= i < |items| && i != k ==> items[i].product != pid
    ensures QuantityOf(items, pid) == items[k].quantity
  {
    var init := items[..|items| - 1];
    if k == |items| - 1 {
      QuantityOfAbsent(init, pid);
    } else {
      QuantityOfSingle(init, pid, k);
    }
  }

  predicate DistinctLineProducts(items: seq<OrderItem>)
  {
    forall i, j :: 0 <= i < j < |items| ==> items[i].product != items[j].product
  }

  /** With one line per product, lines that all passed the check leave no stock
      negative that was not negative already. */
  lemma DistinctLinesKeepStock(products: map<ProductId, ProductModel.Product>, items: seq<OrderItem>)
    requires FirstLineError(products, items).None?
    requires DistinctLineProducts(items)
    ensures forall pid :: pid in products && products[pid].stock >= 0 ==> Decremented(products, items)[pid].stock >= 0
  {
    forall pid | pid in products && products[pid].stock >= 0
      ensures Decremented(products, items)[pid].stock >= 0
    {
      DecrementedStock(products, items, pid);
      if k :| 0 <= k < |items| && items[k].product == pid {
        QuantityOfSingle(items, pid, k);
        assert LineOk(products, items[k]);
      } else {
        QuantityOfAbsent(items, pid);
      }
    }
  }

  /** Two lines for the same product are each checked against the stock as it was, so
      both pass and the stock ends below zero. */
  lemma RepeatedLineOversells(p: ProductModel.Product, line: OrderItem)
    requires p.stock == 1 && line.quantity == 1
    ensures var products := map[line.product := p];
            FirstLineError(products, [line, line]).None?
            && Decremented(products, [line, line])[line.product].stock == -1
  {
    var products := map[line.product := p];
    assert [line, line][..1] == [line];
    assert [line][..0] == [];
    assert LineOk(products, [line, line][0]) && LineOk(products, [line, line][1]);
    assert QuantityOf([line], line.product) == 1;
    assert QuantityOf([line, line], line.product) == 2;
    DecrementedStock(products, [line, line], line.product);
  }

  /** What createOrder answers. An absent or empty item list is refused; then the first
      line whose product is missing or short of stock; then an order the schema refuses.
      An accepted order is the one sent, tagged with the principal, pending, and every
      line of it was covered by stock when it was checked. */
  function OrderOutcome(products: map<ProductId, ProductModel.Product>, p: Principal,
                        orderItems: Option<seq<OrderItem>>, shippingAddress: ShippingAddress,
                        paymentResult: PaymentResult, totalPrice: real, newId: OrderId): (r: Result<Order>)
    ensures orderItems.None? || orderItems.value == [] ==> r == Err(BadRequest("No order items"))
    ensures orderItems.Some? && orderItems.value != [] && FirstLineError(products, orderItems.value).Some? ==>
      r == Err(FirstLineError(products, orderItems.value).value)
    ensures r == Err(Internal) <==>
      orderItems.Some? && orderItems.value != [] && FirstLineError(products, orderItems.value).None?
      && !OrderValid(NewOrder(newId, p, orderItems.value, shippingAddress, paymentResult, totalPrice))
    ensures r.Ok? ==>
      orderItems.Some? && r.value == NewOrder(newId, p, orderItems.value, shippingAddress, paymentResult, totalPrice)
      && OrderValid(r.value) && |r.value.orderItems| >= 1
      && forall i :: 0 <= i < |r.value.orderItems| ==> LineOk(products, r.value.orderItems[i])
    ensures r.Ok? <==>
      orderItems.Some? && orderItems.value != [] && FirstLineError(products, orderItems.value).None?
      && OrderValid(NewOrder(newId, p, orderItems.value, shippingAddress, paymentResult, totalPrice))
  {
    if orderItems.None? || orderItems.value == [] then Err(BadRequest("No order items"))
    else match FirstLineError(products, orderItems.value)
      case Some(e) => Err(e)
      case None =>
        var order := NewOrder(newId, p, orderItems.value, shippingAddress, paymentResult, totalPrice);
        if !OrderValid(order) then Err(Internal) else Ok(order)
  }

  /** createOrder: the answer is OrderOutcome's; a refused order changes nothing, an
      accepted one is stored last and each line's quantity is taken from its product's stock. */
  method CreateOrder(db: Store.Db, p: Principal, orderItems: Option<seq<OrderItem>>,
                     shippingAddress: ShippingAddress, paymentResult: PaymentResult,
                     totalPrice: real, newId: OrderId)
    returns (r: Result<Order>)
    requires Store.ProductsValid(db.products) && Store.OrdersValid(db.orders) && !HasId(db.orders, newId)
    modifies db`orders, db`products
    ensures Store.ProductsValid(db.products) && Store.OrdersValid(db.orders)
    ensures r == OrderOutcome(old(db.products), p, orderItems, shippingAddress, paymentResult, totalPrice, newId)
    ensures r.Err? ==> db.orders == old(db.orders) && db.products == old(db.products)
    ensures r.Ok? ==>
      db.orders == old(db.orders) + [r.value] && db.products == Decremented(old(db.products), r.value.orderItems)
  {
    if orderItems.None? || orderItems.value == [] {
      r := Err(BadRequest("No order items"));
    } else {
      var items := orderItems.value;
      var failure := CheckLines(db.products, items);
      if failure.Some? {
        r := Err(failure.value);
      } else {
        var order := NewOrder(newId, p, items, shippingAddress, paymentResult, totalPrice);
        if !OrderValid(order) {
          r := Err(Internal);
        } else {
          StoreOrder(db.orders, order);
          db.orders := db.orders + [order];
          DecrementStock(db, items);
          r := Ok(order);
        }
      }
    }
  }

  /** Appending a valid order under a fresh id keeps the collection valid. */
  lemma StoreOrder(orders: seq<Order>, order: Order)
    requires Store.OrdersValid(orders) && !HasId(orders, order.id) && OrderValid(order)
    ensures Store.OrdersValid(orders + [order])
  {
    assert forall i :: 0 <= i < |orders| ==> (orders + [order])[i] == orders[i];
  }

  /** The stock-decrement loop of createOrder: one `$inc` per line, in order. The update
      runs no validators, so a stock may go below zero. */
  method DecrementStock(db: Store.Db, items: seq<OrderItem>)
    requires Store.ProductsValid(db.products)
    modifies db`products
    ensures Store.ProductsValid(db.products)
    ensures db.products == Decremented(old(db.products), items)
  {
    var i := 0;
    while i < |items|
      invariant 0 <= i <= |items|
      invariant db.products == Decremented(old(db.products), items[..i])
    {
      var item := items[i];
      assert items[..i + 1][..i] == items[..i];
      if item.product in db.products {
        var product := db.products[item.product];
        db.products := db.products[item.product := product.(stock := product.stock - item.quantity)];
      }
      i := i + 1;
    }
    assert items[..|items|] == items;
    DecrementedFieldsValid(old(db.products), items);
  }

  /** Taking stock leaves every other field, so every product stays within its schema. */
  lemma DecrementedFieldsValid(products: map<ProductId, ProductModel.Product>, items: seq<OrderItem>)
    requires Store.ProductsValid(products)
    ensures Store.ProductsValid(Decremented(products, items))
  {
    forall pid | pid in Decremented(products, items)
      ensures ProductModel.FieldsValid(Decremented(products, items)[pid])
    {
      DecrementedStock(products, items, pid);
    }
  }

  /** An order in a principal's history, with the derived review flag. */
  datatype OrderView = OrderView(order: Order, hasReviewed: bool)

  /** `Order.find({ clerkId })` in store order. */
  function OwnedOrders(orders: seq<Order>, clerk: ClerkId): (r: seq<Order>)
    ensures |r| <= |orders|
  {
    if orders == [] then []
    else
      var rest := OwnedOrders(orders[..|orders| - 1], clerk);
      if orders[|orders| - 1].clerkId == clerk then rest + [orders[|orders| - 1]] else rest
  }

  lemma {:induction false} OwnedOrdersMembers(orders: seq<Order>, clerk: ClerkId)
    ensures forall o :: o in OwnedOrders(orders, clerk) <==> o in orders && o.clerkId == clerk
  {
    if orders != [] {
      OwnedOrdersMembers(orders[..|orders| - 1], clerk);
      assert orders == orders[..|orders| - 1] + [orders[|orders| - 1]];
    }
  }

  /** The ids of the orders some review points at: the set the join tests against. */
  function ReviewedOrderIds(reviews: seq<ReviewModel.Review>): (r: set<OrderId>)
    ensures forall id :: id in r <==> exists i :: 0 <= i < |reviews| && reviews[i].orderId == id
  {
    set i | 0 <= i < |reviews| :: reviews[i].orderId
  }

  /** The principal's orders among `orders`, newest first, flagged from `reviewed`. */
  function NewestFirst(orders: seq<Order>, reviewed: set<OrderId>, clerk: ClerkId): (r: seq<OrderView>)
    ensures var owned := OwnedOrders(orders, clerk);
            |r| == |owned|
            && forall k :: 0 <= k < |r| ==>
                 r[k].order == owned[|owned| - 1 - k] && (r[k].hasReviewed <==> r[k].order.id in reviewed)
  {
    if orders == [] then []
    else
      var last := orders[|orders| - 1];
      var rest := NewestFirst(orders[..|orders| - 1], reviewed, clerk);
      if last.clerkId == clerk then
        var r := [OrderView(last, last.id in reviewed)] + rest;
        assert forall k :: 1 <= k < |r| ==> r[k] == rest[k - 1];
        r
      else rest
  }

  /** getUserOrders: the principal's orders, newest first, each flagged when some review
      names it. */
  function UserOrders(orders: seq<Order>, reviews: seq<ReviewModel.Review>, clerk: ClerkId): (r: seq<OrderView>)
    ensures var owned := OwnedOrders(orders, clerk);
            |r| == |owned|
            && forall k :: 0 <= k < |r| ==>
                 r[k].order == owned[|owned| - 1 - k]
                 && (r[k].hasReviewed <==> exists i :: 0 <= i < |reviews| && reviews[i].orderId == r[k].order.id)
  {
    NewestFirst(orders, ReviewedOrderIds(reviews), clerk)
  }

  /** Exactly the principal's orders appear in the history. */
  lemma UserOrdersExactlyOwned(orders: seq<Order>, reviews: seq<ReviewModel.Review>, clerk: ClerkId, o: Order)
    ensures (exists k :: 0 <= k < |UserOrders(orders, reviews, clerk)| && UserOrders(orders, reviews, clerk)[k].order == o)
            <==> o in orders && o.clerkId == clerk
  {
    OwnedOrdersMembers(orders, clerk);
    var owned := OwnedOrders(orders, clerk);
    var r := UserOrders(orders, reviews, clerk);
    if o in owned {
      var j :| 0 <= j < |owned| && owned[j] == o;
      assert r[|owned| - 1 - j].order == o;
    }
  }
}
