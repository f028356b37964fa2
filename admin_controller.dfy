/** The administrator's handlers: product create, update and delete, the order status
    lifecycle and the revenue total. Image upload and deletion at the blob store are
    outside the model: an upload is represented by the URL it returns. */
module AdminController {
  import opened Common
  import opened Strings
  import ProductModel
  import opened OrderModel
  import Store

  /** The most images a product may be given in one request. */
  const MaxImages: nat := 3

  /** createProduct's checks, in order: every field present and truthy (form fields
      arrive as text, so a numeric field is falsy only when missing or empty, which
      `None` stands for), at least one image, at most three. */
  function CreateProductCheck(name: Option<string>, description: Option<string>, price: Option<real>,
                              stock: Option<int>, category: Option<string>, fileCount: nat): (r: Option<Error>)
    ensures r.None? <==>
      Truthy(name) && Truthy(description) && price.Some? && stock.Some? && Truthy(category)
      && 1 <= fileCount <= MaxImages
    ensures r.Some? ==> r.value.BadRequest?
    ensures r == Some(BadRequest("At least one image is required")) <==>
      Truthy(name) && Truthy(description) && price.Some? && stock.Some? && Truthy(category) && fileCount == 0
    ensures !(Truthy(name) && Truthy(description) && price.Some? && stock.Some? && Truthy(category)) ==>
      r == Some(BadRequest("All fields are required"))
    ensures (Truthy(name) && Truthy(description) && price.Some? && stock.Some? && Truthy(category)
             && fileCount > MaxImages) ==> r == Some(BadRequest("Maximum 3 images allowed"))
  {
    if !Truthy(name) || !Truthy(description) || price.None? || stock.None? || !Truthy(category) then
      Some(BadRequest("All fields are required"))
    else if fileCount == 0 then
      Some(BadRequest("At least one image is required"))
    else if fileCount > MaxImages then
      Some(BadRequest("Maximum 3 images allowed"))
    else
      None
  }

  /** createProduct: `imageUrls` are the URLs the uploads returned, one per file sent. */
  method CreateProduct(db: Store.Db, name: Option<string>, description: Option<string>, price: Option<real>,
                       stock: Option<int>, category: Option<string>, imageUrls: seq<string>, newId: ProductId)
    returns (r: Result<ProductModel.Product>)
    requires Store.ProductsValid(db.products) && newId !in db.products
    modifies db`products
    ensures Store.ProductsValid(db.products)
    ensures r.Err? ==> db.products == old(db.products)
    ensures var check := CreateProductCheck(name, description, price, stock, category, |imageUrls|);
      check.Some? ==> r == Err(check.value)
    ensures CreateProductCheck(name, description, price, stock, category, |imageUrls|).None? ==>
      var p := ProductModel.NewProduct(name.value, description.value, price.value, stock.value, category.value, imageUrls);
      if ProductModel.Valid(p) then r == Ok(p) && db.products == old(db.products)[newId := p]
      else r == Err(Internal)
  {
    var check := CreateProductCheck(name, description, price, stock, category, |imageUrls|);
    if check.Some? {
      return Err(check.value);
    }
    var p := ProductModel.NewProduct(name.value, description.value, price.value, stock.value, category.value, imageUrls);
    if !ProductModel.Valid(p) {
      // a negative price or stock, or an empty URL, fails the schema at create
      return Err(Internal);
    }
    db.products := db.products[newId := p];
    r := Ok(p);
  }

  /** The product as updateProduct edits it before saving: text fields only when truthy,
      price and stock whenever given, images replaced wholesale when files were sent. */
  function EditedProduct(p: ProductModel.Product, name: Option<string>, description: Option<string>,
                         price: Option<real>, stock: Option<int>, category: Option<string>,
                         imageUrls: seq<string>): ProductModel.Product
  {
    p.(name := OrElse(name, p.name),
       description := OrElse(description, p.description),
       price := if price.Some? then price.value else p.price,
       stock := if stock.Some? then stock.value else p.stock,
       category := OrElse(category, p.category),
       images := if |imageUrls| > 0 then imageUrls else p.images)
  }

  /** An empty string in the form keeps the old text, an absent price or stock keeps the
      old number, and no files keep the old images; the rating fields are never touched. */
  lemma EditedProductKeeps(p: ProductModel.Product, name: Option<string>, description: Option<string>,
                           price: Option<real>, stock: Option<int>, category: Option<string>,
                           imageUrls: seq<string>)
    ensures var q := EditedProduct(p, name, description, price, stock, category, imageUrls);
      && (q.name == p.name <== !Truthy(name))
      && (q.description == p.description <== !Truthy(description))
      && (q.category == p.category <== !Truthy(category))
      && (q.price == p.price <== price.None?)
      && (q.stock == p.stock <== stock.None?)
      && (q.images == p.images <== imageUrls == [])
      && q.averageRating == p.averageRating && q.totalReviews == p.totalReviews
    ensures var q := EditedProduct(p, name, description, price, stock, category, imageUrls);
      && (Truthy(name) ==> q.name == name.value)
      && (Truthy(description) ==> q.description == description.value)
      && (Truthy(category) ==> q.category == category.value)
      && (price.Some? ==> q.price == price.value)
      && (stock.Some? ==> q.stock == stock.value)
      && (imageUrls != [] ==> q.images == imageUrls)
  {
  }

  /** updateProduct: unknown id, then more than three files, then the schema check of
      save; any failure leaves the store as it was. */
  method UpdateProduct(db: Store.Db, id: ProductId, name: Option<string>, description: Option<string>,
                       price: Option<real>, stock: Option<int>, category: Option<string>, imageUrls: seq<string>)
    returns (r: Result<ProductModel.Product>)
    requires Store.ProductsValid(db.products)
    modifies db`products
    ensures Store.ProductsValid(db.products)
    ensures r.Err? ==> db.products == old(db.products)
    ensures id !in old(db.products) ==> r == Err(NotFound("Product not found"))
    ensures id in old(db.products) && |imageUrls| > MaxImages ==> r == Err(BadRequest("Maximum 3 images allowed"))
    ensures id in old(db.products) && |imageUrls| <= MaxImages ==>
      var q := EditedProduct(old(db.products)[id], name, description, price, stock, category, imageUrls);
      if ProductModel.Valid(q) then r == Ok(q) && db.products == old(db.products)[id := q]
      else r == Err(Internal)
  {
    if id !in db.products {
      return Err(NotFound("Product not found"));
    }
    if |imageUrls| > 0 && |imageUrls| > MaxImages {
      return Err(BadRequest("Maximum 3 images allowed"));
    }
    var q := EditedProduct(db.products[id], name, description, price, stock, category, imageUrls);
    if !ProductModel.Valid(q) {
      // save() validates the whole document, a stock already below zero included
      return Err(Internal);
    }
    db.products := db.products[id := q];
    r := Ok(q);
  }

  /** The order after a status change at time `now`: the status is replaced, and a
      timestamp is set only by its own status and only while it is unset. */
  function Transition(o: Order, st: Status, now: Time): Order
  {
    o.(status := st,
       shippedAt := if st == Shipped && o.shippedAt.None? then Some(now) else o.shippedAt,
       deliveredAt := if st == Delivered && o.deliveredAt.None? then Some(now) else o.deliveredAt)
  }

  /** A sequence of status changes, each with the time it is made. */
  function TransitionAll(o: Order, steps: seq<(Status, Time)>): Order
  {
    if steps == [] then o
    else Transition(TransitionAll(o, steps[..|steps| - 1]), steps[|steps| - 1].0, steps[|steps| - 1].1)
  }

  /** First write wins: once set, neither timestamp changes, whatever statuses follow. */
  lemma {:induction false} TimestampsSetOnce(o: Order, steps: seq<(Status, Time)>)
    ensures o.shippedAt.Some? ==> TransitionAll(o, steps).shippedAt == o.shippedAt
    ensures o.deliveredAt.Some? ==> TransitionAll(o, steps).deliveredAt == o.deliveredAt
  {
    if steps != [] {
      TimestampsSetOnce(o, steps[..|steps| - 1]);
    }
  }

  /** shippedAt ends up set exactly when it was set before or some change was to
      shipped; delivered and pending never set it. Likewise for deliveredAt. */
  lemma {:induction false} TimestampSetIff(o: Order, steps: seq<(Status, Time)>)
    ensures TransitionAll(o, steps).shippedAt.Some? <==>
            o.shippedAt.Some? || exists k :: 0 <= k < |steps| && steps[k].0 == Shipped
    ensures TransitionAll(o, steps).deliveredAt.Some? <==>
            o.deliveredAt.Some? || exists k :: 0 <= k < |steps| && steps[k].0 == Delivered
  {
    if steps != [] {
      var init := steps[..|steps| - 1];
      TimestampSetIff(o, init);
      assert forall k :: 0 <= k < |init| ==> init[k] == steps[k];
    }
  }

  /** Only the status and the two timestamps ever change. */
  lemma {:induction false} TransitionKeepsContents(o: Order, steps: seq<(Status, Time)>)
    ensures var o' := TransitionAll(o, steps);
      o' == o.(status := o'.status, shippedAt := o'.shippedAt, deliveredAt := o'.deliveredAt)
    ensures steps != [] ==> TransitionAll(o, steps).status == steps[|steps| - 1].0
  {
    if steps != [] {
      TransitionKeepsContents(o, steps[..|steps| - 1]);
    }
  }

  /** updateOrderStatus: a status outside the enum, then an unknown order, are refused
      without change. */
  method UpdateOrderStatus(db: Store.Db, orderId: OrderId, status: string, now: Time)
    returns (r: Result<Order>)
    requires Store.OrdersValid(db.orders)
    modifies db`orders
    ensures Store.OrdersValid(db.orders)
    ensures r.Err? ==> db.orders == old(db.orders)
    ensures ParseStatus(status).None? ==> r == Err(BadRequest("Invalid status"))
    ensures ParseStatus(status).Some? && !HasId(old(db.orders), orderId) ==> r == Err(NotFound("Order not found"))
    ensures ParseStatus(status).Some? && HasId(old(db.orders), orderId) ==>
      var i := FindOrder(old(db.orders), orderId).value;
      r == Ok(Transition(old(db.orders)[i], ParseStatus(status).value, now))
      && db.orders == old(db.orders)[i := r.value]
  {
    var st := ParseStatus(status);
    if st.None? {
      return Err(BadRequest("Invalid status"));
    }
    var index := FindOrder(db.orders, orderId);
    if index.None? {
      return Err(NotFound("Order not found"));
    }
    var i := index.value;
    var order := db.orders[i];
    order := order.(status := st.value);
    if st.value == Shipped && order.shippedAt.None? {
      order := order.(shippedAt := Some(now));
    }
    if st.value == Delivered && order.deliveredAt.None? {
      order := order.(deliveredAt := Some(now));
    }
    db.orders := db.orders[i := order];
    r := Ok(order);
  }

  /** The `$sum` of totalPrice over all orders; 0 when there are none. */
  function TotalRevenue(orders: seq<Order>): real
  {
    if orders == [] then 0.0 else TotalRevenue(orders[..|orders| - 1]) + orders[|orders| - 1].totalPrice
  }

  /** Placing an order adds exactly its total to the revenue. */
  lemma RevenueOfAppend(orders: seq<Order>, o: Order)
    ensures TotalRevenue(orders + [o]) == TotalRevenue(orders) + o.totalPrice
  {
    assert (orders + [o])[..|orders|] == orders;
  }

  /** The revenue is never negative, since every stored total is at least 0. */
  lemma {:induction false} RevenueNonNegative(orders: seq<Order>)
    requires Store.OrdersValid(orders)
    ensures TotalRevenue(orders) >= 0.0
    ensures orders == [] ==> TotalRevenue(orders) == 0.0
  {
    if orders != [] {
      RevenueNonNegative(orders[..|orders| - 1]);
      assert OrderValid(orders[|orders| - 1]);
    }
  }

  datatype DashboardStats = DashboardStats(totalRevenue: real, totalOrders: nat, totalCustomers: nat, totalProducts: nat)

  /** getDashboardStats: counts of the three collections and the revenue. */
  method GetDashboardStats(db: Store.Db) returns (stats: DashboardStats)
    requires Store.OrdersValid(db.orders)
    ensures stats.totalRevenue == TotalRevenue(db.orders) && stats.totalRevenue >= 0.0
    ensures stats.totalOrders == |db.orders| && stats.totalCustomers == |db.users| && stats.totalProducts == |db.products|
  {
    RevenueNonNegative(db.orders);
    stats := DashboardStats(TotalRevenue(db.orders), |db.orders|, |db.users|, |db.products|);
  }

  /** The public id deleteProduct derives from an image URL:
      `"products/" + url.split("/products/")[1]?.split(".")[0]`, where a URL without
      "/products/" concatenates `undefined`. */
  function PublicId(url: string): string
  {
    "products/" + match SplitSecond(url, "/products/")
                  case None => "undefined"
                  case Some(segment) => SplitHead(segment, ".")
  }

  lemma PublicIdWithoutFolder(url: string)
    requires !Contains(url, "/products/")
    ensures PublicId(url) == "products/undefined"
  {
  }

  /** A split at the first occurrence: `s.split(sep)[0]` is the text before it. */
  lemma SplitHeadAt(s: string, sep: string, k: nat)
    requires sep != "" && OccursAt(s, sep, k)
    requires forall j: nat :: j < k ==> !OccursAt(s, sep, j)
    ensures SplitHead(s, sep) == s[..k]
  {
  }

  /** An occurrence of the separator begins with its first character. */
  lemma NoOccurrenceBefore(s: string, sep: string, k: nat)
    requires sep != "" && k <= |s|
    requires forall j :: 0 <= j < k ==> s[j] != sep[0]
    ensures forall j: nat :: j < k ==> !OccursAt(s, sep, j)
  {
    forall j: nat | j < k ensures !OccursAt(s, sep, j) {
      if j + |sep| <= |s| {
        assert s[j..j + |sep|][0] == s[j] != sep[0];
      }
    }
  }

  /** For a URL of the shape the blob store returns, `<prefix>/products/<name><ext>`,
      whose first "/products/" is the one after the prefix, and whose name holds no
      slash or dot, the derived public id is "products/<name>". */
  lemma PublicIdOfUploadUrl(prefix: string, name: string, ext: string)
    requires !Contains(prefix + "/products", "/products/")
    requires '/' !in name && '.' !in name
    requires |ext| > 0 && ext[0] == '.'
    ensures PublicId(prefix + "/products/" + name + ext) == "products/" + name
  {
    var pat := "/products/";
    var url := prefix + pat + name + ext;
    FolderAfterPrefix(prefix, name + ext);
    assert url == prefix + pat + (name + ext);
    assert url[|prefix| + |pat|..] == name + ext;
    NameBeforeExtension(name, ext);
  }

  /** The first "/products/" of such a URL is the one right after the prefix. */
  lemma FolderAfterPrefix(prefix: string, tail: string)
    requires !Contains(prefix + "/products", "/products/")
    ensures IndexOf(prefix + "/products/" + tail, "/products/") == Some(|prefix|)
  {
    var pat := "/products/";
    var url := prefix + pat + tail;
    var n := |prefix|;
    assert url[n..n + |pat|] == pat;
    assert url[..n + |pat| - 1] == prefix + "/products";
    forall j: nat | j < n ensures !OccursAt(url, pat, j) {
      assert !OccursAt(prefix + "/products", pat, j);
      assert url[j..j + |pat|] == (prefix + "/products")[j..j + |pat|];
    }
    assert OccursAt(url, pat, n);
    var first := IndexOf(url, pat);
    assert first.Some? && first.value <= n;
    assert !(first.value < n);
  }

  /** After the folder, the text up to the next "/products/" and then up to the first
      dot is the name. */
  lemma NameBeforeExtension(name: string, ext: string)
    requires '/' !in name && '.' !in name
    requires |ext| > 0 && ext[0] == '.'
    ensures SplitHead(SplitHead(name + ext, "/products/"), ".") == name
  {
    var pat := "/products/";
    var rest := name + ext;
    forall j | 0 <= j < |name| + 1 ensures rest[j] != pat[0] {
      if j < |name| { assert rest[j] == name[j]; } else { assert rest[j] == ext[0]; }
    }
    NoOccurrenceBefore(rest, pat, |name| + 1);
    var segment := SplitHead(rest, pat);
    assert |segment| > |name|;
    assert segment[..|name|] == name && segment[|name|] == '.';
    forall j | 0 <= j < |name| ensures segment[j] != "."[0] {
      assert segment[j] == name[j];
    }
    NoOccurrenceBefore(segment, ".", |name|);
    assert segment[|name|..|name| + 1] == ".";
    SplitHeadAt(segment, ".", |name|);
  }

  /** deleteProduct: unknown id is refused; otherwise the product goes and the public id
      of each of its images is handed to the blob store's destroy call. */
  method DeleteProduct(db: Store.Db, id: ProductId) returns (r: Result<seq<string>>)
    requires Store.ProductsValid(db.products)
    modifies db`products
    ensures Store.ProductsValid(db.products)
    ensures id !in old(db.products) ==> r == Err(NotFound("Product not found")) && db.products == old(db.products)
    ensures id in old(db.products) ==>
      var images := old(db.products)[id].images;
      r.Ok? && |r.value| == |images| && (forall i :: 0 <= i < |images| ==> r.value[i] == PublicId(images[i]))
      && db.products == old(db.products) - {id}
  {
    if id !in db.products {
      return Err(NotFound("Product not found"));
    }
    var images := db.products[id].images;
    var publicIds := seq(|images|, i requires 0 <= i < |images| => PublicId(images[i]));
    db.products := db.products - {id};
    r := Ok(publicIds);
  }
}
