/** The database the controllers read and write: one collection per model. */
module Store {
  import opened Common
  import ProductModel
  import CartModel
  import OrderModel
  import ReviewModel
  import UserModel

  /** Every stored product meets the schema, save for the stock bound. */
  predicate ProductsValid(products: map<ProductId, ProductModel.Product>)
  {
    forall pid :: pid in products ==> ProductModel.FieldsValid(products[pid])
  }

  /** Each cart is stored under its owner's clerkId, meets the schema and has one line per product. */
  predicate CartsValid(carts: map<ClerkId, CartModel.Cart>)
  {
    forall c :: c in carts ==>
      carts[c].clerkId == c && CartModel.CartValid(carts[c]) && CartModel.DistinctProducts(carts[c].items)
  }

  predicate OrdersValid(orders: seq<OrderModel.Order>)
  {
    OrderModel.IdsDistinct(orders) && forall i :: 0 <= i < |orders| ==> OrderModel.OrderValid(orders[i])
  }

  predicate ReviewsValid(reviews: seq<ReviewModel.Review>)
  {
    ReviewModel.IdsDistinct(reviews) && ReviewModel.AllValid(reviews) && ReviewModel.OnePerProductAndUser(reviews)
  }

  /** What the address and wishlist handlers keep true of one user. */
  predicate AccountValid(u: UserModel.User)
  {
    && UserModel.UserValid(u)
    && UserModel.AddressIdsDistinct(u.addresses)
    && UserModel.AtMostOneDefault(u.addresses)
    && UserModel.NoDuplicates(u.wishlist)
  }

  predicate UsersValid(users: map<UserId, UserModel.User>)
  {
    && (forall u :: u in users ==> users[u].id == u && AccountValid(users[u]))
    && UserModel.IdentitiesUnique(users)
  }

  class Db {
    var products: map<ProductId, ProductModel.Product>
    /** Carts keyed by the owner's clerkId, the field the schema declares unique. */
    var carts: map<ClerkId, CartModel.Cart>
    /** Orders in creation order, oldest first. */
    var orders: seq<OrderModel.Order>
    /** Reviews in insertion order. */
    var reviews: seq<ReviewModel.Review>
    var users: map<UserId, UserModel.User>

    /** What every handler keeps true of the stored documents. */
    ghost predicate Valid()
      reads this
    {
      ProductsValid(products) && CartsValid(carts) && OrdersValid(orders) && ReviewsValid(reviews) && UsersValid(users)
    }

    constructor ()
      ensures Valid()
      ensures products == map[] && carts == map[] && orders == [] && reviews == [] && users == map[]
    {
      products, carts, orders, reviews, users := map[], map[], [], [], map[];
    }
  }
}
