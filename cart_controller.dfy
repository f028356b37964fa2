/** The cart handlers: one cart per principal, created on first use, checked against the
    product's current stock on every add and update (no stock is reserved). */
module CartController {
  import opened Common
  import opened CartModel
  import ProductModel
  import Store

  /** The principal's stored cart, or the empty cart that would be created for them. */
  function CurrentCart(carts: map<ClerkId, Cart>, p: Principal): (c: Cart)
    ensures p.clerkId in carts ==> c == carts[p.clerkId]
    ensures p.clerkId !in carts ==> c.items == [] && c.clerkId == p.clerkId && c.user == p.userId
  {
    if p.clerkId in carts then carts[p.clerkId] else EmptyCart(p)
  }

  /** Storing a valid cart under its owner keeps every cart valid. */
  lemma StoreCart(carts: map<ClerkId, Cart>, c: Cart)
    requires Store.CartsValid(carts) && CartValid(c) && DistinctProducts(c.items)
    ensures Store.CartsValid(carts[c.clerkId := c])
  {
  }

  /** getCart: the principal's cart, created empty when there is none; never fails. */
  method GetCart(db: Store.Db, p: Principal) returns (c: Cart)
    requires Store.CartsValid(db.carts) && p.clerkId != ""
    modifies db`carts
    ensures Store.CartsValid(db.carts)
    ensures c == CurrentCart(old(db.carts), p)
    ensures db.carts == old(db.carts)[p.clerkId := c]
  {
    if p.clerkId in db.carts {
      c := db.carts[p.clerkId];
    } else {
      c := EmptyCart(p);
      db.carts := db.carts[p.clerkId := c];
    }
  }

  /** The quantity addToCart asks for: the body's `quantity`, 1 when absent. */
  function Requested(quantity: Option<int>): int
  {
    if quantity.Some? then quantity.value else DefaultQuantity
  }

  /** What addToCart answers, given the products and the principal's current cart. The
      stock check against the requested quantity comes first; a repeated add raises the
      line by exactly one, whatever quantity is asked for; a new line below 1 fails the
      schema. A successful add never leaves more of the product in the cart than in stock. */
  function AddOutcome(products: map<ProductId, ProductModel.Product>, c0: Cart, pid: ProductId,
                      quantity: Option<int>): (r: Result<Cart>)
    requires DistinctProducts(c0.items) && forall i :: 0 <= i < |c0.items| ==> ItemValid(c0.items[i])
    ensures pid !in products ==> r == Err(NotFound("Product not found"))
    ensures pid in products && products[pid].stock < Requested(quantity) ==> r == Err(BadRequest("Insufficient stock"))
    ensures r == Err(Internal) <==>
      pid in products && products[pid].stock >= Requested(quantity)
      && FindItem(c0.items, pid).None? && Requested(quantity) < 1
    ensures pid in products && products[pid].stock >= Requested(quantity) && FindItem(c0.items, pid).Some? ==>
      (r.Ok? <==> c0.items[FindItem(c0.items, pid).value].quantity + 1 <= products[pid].stock)
    ensures (pid in products && FindItem(c0.items, pid).Some?
             && c0.items[FindItem(c0.items, pid).value].quantity + 1 > products[pid].stock) ==>
      r == Err(BadRequest("Insufficient stock"))
    ensures (pid in products && products[pid].stock >= Requested(quantity)
             && FindItem(c0.items, pid).None? && Requested(quantity) >= 1) ==> r.Ok?
    ensures r.Ok? ==>
      pid in products && r.value == c0.(items := AddItem(c0.items, pid, Requested(quantity)))
      && (forall i :: 0 <= i < |r.value.items| ==> ItemValid(r.value.items[i]))
      && DistinctProducts(r.value.items)
      && FindItem(r.value.items, pid).Some?
      && r.value.items[FindItem(r.value.items, pid).value].quantity <= products[pid].stock
  {
    var q := Requested(quantity);
    AddItemKeepsLines(c0.items, pid, q);
    if pid !in products then Err(NotFound("Product not found"))
    else if products[pid].stock < q then Err(BadRequest("Insufficient stock"))
    else match FindItem(c0.items, pid)
      case Some(i) =>
        if products[pid].stock < c0.items[i].quantity + 1 then Err(BadRequest("Insufficient stock"))
        else Ok(c0.(items := AddItem(c0.items, pid, q)))
      case None =>
        if q < 1 then Err(Internal) else Ok(c0.(items := AddItem(c0.items, pid, q)))
  }

  /** addToCart: the answer is AddOutcome's for the stored or newly created cart. A success
      stores the new cart; a schema failure still leaves the lazily created cart stored;
      any other refusal changes nothing. */
  method AddToCart(db: Store.Db, p: Principal, pid: ProductId, quantity: Option<int>)
    returns (r: Result<Cart>)
    requires Store.CartsValid(db.carts) && p.clerkId != ""
    modifies db`carts
    ensures Store.CartsValid(db.carts)
    ensures r == AddOutcome(db.products, CurrentCart(old(db.carts), p), pid, quantity)
    ensures r.Ok? ==> db.carts == old(db.carts)[p.clerkId := r.value]
    ensures r == Err(Internal) ==> db.carts == old(db.carts)[p.clerkId := CurrentCart(old(db.carts), p)]
    ensures r.Err? && r != Err(Internal) ==> db.carts == old(db.carts)
  {
    var q := Requested(quantity);
    if pid !in db.products {
      return Err(NotFound("Product not found"));
    }
    var product := db.products[pid];
    if product.stock < q {
      return Err(BadRequest("Insufficient stock"));
    }
    ghost var before := db.carts;
    var cart := GetCart(db, p);
    assert CartValid(cart) && DistinctProducts(cart.items);
    var found := FindItem(cart.items, pid);
    if found.Some? && product.stock < cart.items[found.value].quantity + 1 {
      assert p.clerkId in before && before[p.clerkId := cart] == before;
      return Err(BadRequest("Insufficient stock"));
    }
    AddItemKeepsLines(cart.items, pid, q);
    cart := cart.(items := AddItem(cart.items, pid, q));
    if !CartValid(cart) {
      // the schema's `min: 1` rejects the new line; the empty cart stays stored
      return Err(Internal);
    }
    StoreCart(db.carts, cart);
    db.carts := db.carts[p.clerkId := cart];
    r := Ok(cart);
  }

  /** updateCartItem. Errors in this order: quantity below 1, no cart, no line for the
      product, no product, stock below the quantity. Only that line's quantity changes. */
  method UpdateCartItem(db: Store.Db, p: Principal, pid: ProductId, quantity: int)
    returns (r: Result<Cart>)
    requires Store.CartsValid(db.carts)
    modifies db`carts
    ensures Store.CartsValid(db.carts)
    ensures r.Err? ==> db.carts == old(db.carts)
    ensures quantity < 1 ==> r == Err(BadRequest("Quantity must be at least 1"))
    ensures quantity >= 1 && p.clerkId !in old(db.carts) ==> r == Err(NotFound("Cart not found"))
    ensures quantity >= 1 && p.clerkId in old(db.carts) ==>
      var c0 := old(db.carts)[p.clerkId];
      match FindItem(c0.items, pid)
      case None => r == Err(NotFound("Item not found in cart"))
      case Some(i) =>
        if pid !in db.products then r == Err(NotFound("Product not found"))
        else if db.products[pid].stock < quantity then r == Err(BadRequest("Insufficient stock"))
        else r == Ok(c0.(items := c0.items[i := c0.items[i].(quantity := quantity)]))
             && db.carts == old(db.carts)[p.clerkId := r.value]
  {
    if quantity < 1 {
      return Err(BadRequest("Quantity must be at least 1"));
    }
    if p.clerkId !in db.carts {
      return Err(NotFound("Cart not found"));
    }
    var cart := db.carts[p.clerkId];
    var index := FindItem(cart.items, pid);
    if index.None? {
      return Err(NotFound("Item not found in cart"));
    }
    if pid !in db.products {
      return Err(NotFound("Product not found"));
    }
    if db.products[pid].stock < quantity {
      return Err(BadRequest("Insufficient stock"));
    }
    var i := index.value;
    cart := cart.(items := cart.items[i := cart.items[i].(quantity := quantity)]);
    db.carts := db.carts[p.clerkId := cart];
    r := Ok(cart);
  }

  /** removeFromCart: every line for the product goes, the others stay in order; no line
      is not an error, no cart is. */
  method RemoveFromCart(db: Store.Db, p: Principal, pid: ProductId) returns (r: Result<Cart>)
    requires Store.CartsValid(db.carts)
    modifies db`carts
    ensures Store.CartsValid(db.carts)
    ensures p.clerkId !in old(db.carts) ==> r == Err(NotFound("Cart not found")) && db.carts == old(db.carts)
    ensures p.clerkId in old(db.carts) ==>
      var c0 := old(db.carts)[p.clerkId];
      r == Ok(c0.(items := RemoveProduct(c0.items, pid))) && db.carts == old(db.carts)[p.clerkId := r.value]
  {
    if p.clerkId !in db.carts {
      return Err(NotFound("Cart not found"));
    }
    var cart := db.carts[p.clerkId];
    RemoveProductKeepsDistinct(cart.items, pid);
    cart := cart.(items := RemoveProduct(cart.items, pid));
    db.carts := db.carts[p.clerkId := cart];
    r := Ok(cart);
  }

  /** clearCart: the cart stays, its lines go; no cart is an error. */
  method ClearCart(db: Store.Db, p: Principal) returns (r: Result<Cart>)
    requires Store.CartsValid(db.carts)
    modifies db`carts
    ensures Store.CartsValid(db.carts)
    ensures p.clerkId !in old(db.carts) ==> r == Err(NotFound("Cart not found")) && db.carts == old(db.carts)
    ensures p.clerkId in old(db.carts) ==>
      r == Ok(old(db.carts)[p.clerkId].(items := [])) && db.carts == old(db.carts)[p.clerkId := r.value]
  {
    if p.clerkId !in db.carts {
      return Err(NotFound("Cart not found"));
    }
    var cart := db.carts[p.clerkId].(items := []);
    db.carts := db.carts[p.clerkId := cart];
    r := Ok(cart);
  }
}
