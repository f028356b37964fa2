/** The product document: its fields and the bounds its schema declares. */
module ProductModel {
  import opened Common

  datatype Product = Product(
    name: string,
    description: string,
    price: real,
    stock: int,
    category: string,
    images: seq<string>,
    averageRating: real,
    totalReviews: int)

  /** Every schema constraint except the lower bound on stock: the stock decrement at
      order placement is an `$inc` update, which runs no validators, so only these
      constraints hold of every stored product. */
  predicate FieldsValid(p: Product)
  {
    && p.name != "" && p.description != "" && p.category != ""
    && p.price >= 0.0
    && (forall i :: 0 <= i < |p.images| ==> p.images[i] != "")
    && 0.0 <= p.averageRating <= 5.0
  }

  /** What `save()` and `create()` check: all of the schema, `stock >= 0` included. */
  predicate Valid(p: Product)
  {
    FieldsValid(p) && p.stock >= 0
  }

  /** A product as `Product.create` stores it: rating and review count at their defaults. */
  function NewProduct(name: string, description: string, price: real, stock: int,
                      category: string, images: seq<string>): Product
  {
    Product(name, description, price, stock, category, images, 0.0, 0)
  }

  lemma NewProductValid(name: string, description: string, price: real, stock: int,
                        category: string, images: seq<string>)
    ensures Valid(NewProduct(name, description, price, stock, category, images)) <==>
            && name != "" && description != "" && category != ""
            && price >= 0.0 && stock >= 0
            && forall i :: 0 <= i < |images| ==> images[i] != ""
    ensures NewProduct(name, description, price, stock, category, images).averageRating == 0.0
    ensures NewProduct(name, description, price, stock, category, images).totalReviews == 0
  {
  }
}
