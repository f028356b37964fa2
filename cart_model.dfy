/** The cart document: one per principal, a list of product lines. */
module CartModel {
  import opened Common

  datatype CartItem = CartItem(product: ProductId, quantity: int)

  datatype Cart = Cart(user: UserId, clerkId: ClerkId, items: seq<CartItem>)

  /** Quantity is required and at least 1. */
  predicate ItemValid(item: CartItem)
  {
    item.quantity >= 1
  }

  predicate CartValid(c: Cart)
  {
    c.clerkId != "" && forall i :: 0 <= i < |c.items| ==> ItemValid(c.items[i])
  }

  /** At most one line per product. */
  predicate DistinctProducts(items: seq<CartItem>)
  {
    forall i, j :: 0 <= i < j < |items| ==> items[i].product != items[j].product
  }

  /** The quantity a line gets when none is given. */
  const DefaultQuantity: int := 1

  /** The cart created lazily for a principal. */
  function EmptyCart(p: Principal): (c: Cart)
    ensures c.items == [] && c.clerkId == p.clerkId && c.user == p.userId
  {
    Cart(p.userId, p.clerkId, [])
  }

  lemma EmptyCartValid(p: Principal)
    requires p.clerkId != ""
    ensures CartValid(EmptyCart(p)) && DistinctProducts(EmptyCart(p).items)
  {
  }

  /** `items.findIndex(item => item.product === productId)`. */
  function FindItem(items: seq<CartItem>, pid: ProductId): (r: Option<nat>)
    ensures r.Some? ==> r.value < |items| && items[r.value].product == pid
    ensures r.Some? ==> forall j :: 0 <= j < r.value ==> items[j].product != pid
    ensures r.None? ==> forall j :: 0 <= j < |items| ==> items[j].product != pid
  {
    if items == [] then None
    else if items[0].product == pid then Some(0)
    else match FindItem(items[1..], pid)
      case Some(k) => Some(k + 1)
      case None => None
  }

  /** `items.filter(item => item.product !== productId)`. */
  function RemoveProduct(items: seq<CartItem>, pid: ProductId): (r: seq<CartItem>)
    ensures |r| <= |items|
  {
    if items == [] then []
    else if items[|items| - 1].product == pid then RemoveProduct(items[..|items| - 1], pid)
    else RemoveProduct(items[..|items| - 1], pid) + [items[|items| - 1]]
  }

  /** The filter drops exactly the lines for `pid` and keeps every other line. */
  lemma {:induction false} RemoveProductMembers(items: seq<CartItem>, pid: ProductId)
    ensures forall x :: x in RemoveProduct(items, pid) <==> x in items && x.product != pid
  {
    if items != [] {
      RemoveProductMembers(items[..|items| - 1], pid);
      assert items == items[..|items| - 1] + [items[|items| - 1]];
    }
  }

  /** Removing a product that has no line leaves the list as it was. */
  lemma {:induction false} RemoveAbsentIsIdentity(items: seq<CartItem>, pid: ProductId)
    requires forall j :: 0 <= j < |items| ==> items[j].product != pid
    ensures RemoveProduct(items, pid) == items
  {
    if items != [] {
      RemoveAbsentIsIdentity(items[..|items| - 1], pid);
      assert items == items[..|items| - 1] + [items[|items| - 1]];
    }
  }

  /** The filter keeps the surviving lines in their original order: it distributes over
      concatenation, so a line before another stays before it. */
  lemma {:induction false} RemoveProductAppend(a: seq<CartItem>, b: seq<CartItem>, pid: ProductId)
    ensures RemoveProduct(a + b, pid) == RemoveProduct(a, pid) + RemoveProduct(b, pid)
    decreases |b|
  {
    if b == [] {
      assert a + b == a;
    } else {
      assert (a + b)[..|a + b| - 1] == a + b[..|b| - 1];
      RemoveProductAppend(a, b[..|b| - 1], pid);
    }
  }

  lemma {:induction false} RemoveProductKeepsDistinct(items: seq<CartItem>, pid: ProductId)
    requires DistinctProducts(items) && forall i :: 0 <= i < |items| ==> ItemValid(items[i])
    ensures DistinctProducts(RemoveProduct(items, pid))
    ensures forall i :: 0 <= i < |RemoveProduct(items, pid)| ==> ItemValid(RemoveProduct(items, pid)[i])
  {
    if items != [] {
      var init := items[..|items| - 1];
      RemoveProductKeepsDistinct(init, pid);
      RemoveProductMembers(init, pid);
      var r := RemoveProduct(init, pid);
      if items[|items| - 1].product != pid {
        forall i | 0 <= i < |r| ensures r[i].product != items[|items| - 1].product {
          assert r[i] in r;
        }
      }
    }
  }

  /** The lines after an add: an existing line for the product goes up by one,
      otherwise a line with the requested quantity goes last. */
  function AddItem(items: seq<CartItem>, pid: ProductId, q: int): seq<CartItem>
  {
    match FindItem(items, pid)
    case Some(i) => items[i := CartItem(pid, items[i].quantity + 1)]
    case None => items + [CartItem(pid, q)]
  }

  /** An add keeps one line per product, leaves every other line alone, and yields
      valid lines exactly when the product was already there or the quantity is at least 1. */
  lemma AddItemKeepsLines(items: seq<CartItem>, pid: ProductId, q: int)
    requires DistinctProducts(items) && forall i :: 0 <= i < |items| ==> ItemValid(items[i])
    ensures var r := AddItem(items, pid, q);
      && DistinctProducts(r)
      && ((forall i :: 0 <= i < |r| ==> ItemValid(r[i])) <==> FindItem(items, pid).Some? || q >= 1)
      && |r| == |items| + (if FindItem(items, pid).Some? then 0 else 1)
      && (forall i :: 0 <= i < |items| && items[i].product != pid ==> r[i] == items[i])
      && (forall i :: 0 <= i < |r| && r[i].product != pid ==> i < |items| && r[i] == items[i])
      && FindItem(r, pid).Some?
      && r[FindItem(r, pid).value].quantity
         == (match FindItem(items, pid) case Some(i) => items[i].quantity + 1 case None => q)
  {
    var r := AddItem(items, pid, q);
    if FindItem(items, pid).None? {
      assert r[|items|] == CartItem(pid, q);
    }
  }
}
