/** The review handlers: a gated upsert keyed by (product, user), and the product's
    rating aggregate recomputed from scratch after every write. */
module ReviewController {
  import opened Common
  import opened ReviewModel
  import OrderModel
  import ProductModel
  import Store

  /** createReview's first check: `!rating || rating < 1 || rating > 5`. */
  function RatingCheck(rating: Option<real>): (r: Option<Error>)
    ensures r.None? <==> rating.Some? && 1.0 <= rating.value <= 5.0
    ensures r.Some? ==> r.value == BadRequest("Rating must be between 1 and 5")
  {
    if rating.None? || rating.value == 0.0 || rating.value < 1.0 || rating.value > 5.0 then
      Some(BadRequest("Rating must be between 1 and 5"))
    else None
  }

  /** The product occurs on some line of the order. */
  predicate InOrder(o: OrderModel.Order, pid: ProductId)
  {
    exists k :: 0 <= k < |o.orderItems| && o.orderItems[k].product == pid
  }

  /** The gate on the order, in order: it exists, it is the principal's, it was
      delivered, and it contains the product. */
  function OrderGate(orders: seq<OrderModel.Order>, p: Principal, pid: ProductId, orderId: OrderId): (r: Option<Error>)
    ensures r.None? <==>
      OrderModel.HasId(orders, orderId) &&
      var o := orders[OrderModel.FindOrder(orders, orderId).value];
      o.clerkId == p.clerkId && o.status == OrderModel.Delivered && InOrder(o, pid)
    ensures !OrderModel.HasId(orders, orderId) ==> r == Some(NotFound("Order not found"))
    ensures OrderModel.HasId(orders, orderId) ==>
      var o := orders[OrderModel.FindOrder(orders, orderId).value];
      && (o.clerkId != p.clerkId ==> r == Some(Forbidden("Not authorized to review this order")))
      && (o.clerkId == p.clerkId && o.status != OrderModel.Delivered ==>
            r == Some(BadRequest("Can only review delivered orders")))
      && (o.clerkId == p.clerkId && o.status == OrderModel.Delivered && !InOrder(o, pid) ==>
            r == Some(BadRequest("Product not found in this order")))
  {
    match OrderModel.FindOrder(orders, orderId)
    case None => Some(NotFound("Order not found"))
    case Some(i) =>
      var o := orders[i];
      if o.clerkId != p.clerkId then Some(Forbidden("Not authorized to review this order"))
      else if o.status != OrderModel.Delivered then Some(BadRequest("Can only review delivered orders"))
      else if !InOrder(o, pid) then Some(BadRequest("Product not found in this order"))
      else None
  }

  /** The ratings of one product's reviews, in store order: `Review.find({ productId })`. */
  function RatingsOf(reviews: seq<Review>, pid: ProductId): (r: seq<real>)
    ensures |r| <= |reviews|
  {
    if reviews == [] then []
    else
      var rest := RatingsOf(reviews[..|reviews| - 1], pid);
      if reviews[|reviews| - 1].productId == pid then rest + [reviews[|reviews| - 1].rating] else rest
  }

  lemma {:induction false} RatingsInRange(reviews: seq<Review>, pid: ProductId)
    requires AllValid(reviews)
    ensures forall i :: 0 <= i < |RatingsOf(reviews, pid)| ==> 1.0 <= RatingsOf(reviews, pid)[i] <= 5.0
  {
    if reviews != [] {
      RatingsInRange(reviews[..|reviews| - 1], pid);
      assert ReviewValid(reviews[|reviews| - 1]);
    }
  }

  /** A product with at least one review has at least one rating to average. */
  lemma {:induction false} RatingsOfNonEmpty(reviews: seq<Review>, pid: ProductId, i: nat)
    requires i < |reviews| && reviews[i].productId == pid
    ensures |RatingsOf(reviews, pid)| >= 1
  {
    if i < |reviews| - 1 {
      RatingsOfNonEmpty(reviews[..|reviews| - 1], pid, i);
    }
  }

  /** A rating is among a product's ratings exactly when some review of that product has it. */
  lemma {:induction false} RatingsOfMembers(reviews: seq<Review>, pid: ProductId, x: real)
    ensures x in RatingsOf(reviews, pid) <==>
      exists i :: 0 <= i < |reviews| && reviews[i].productId == pid && reviews[i].rating == x
  {
    if reviews != [] {
      var n := |reviews| - 1;
      var init := reviews[..n];
      RatingsOfMembers(init, pid, x);
      if exists i :: 0 <= i < |init| && init[i].productId == pid && init[i].rating == x {
        var i :| 0 <= i < |init| && init[i].productId == pid && init[i].rating == x;
        assert reviews[i] == init[i];
      }
      if exists i :: 0 <= i < |reviews| && reviews[i].productId == pid && reviews[i].rating == x {
        var i :| 0 <= i < |reviews| && reviews[i].productId == pid && reviews[i].rating == x;
        if i < n {
          assert init[i] == reviews[i];
        }
      }
    }
  }

  /** The indices of a product's reviews: those of all but the last review, plus the last
      one's when it is of the product. */
  lemma ReviewIndicesSplit(reviews: seq<Review>, pid: ProductId)
    requires reviews != []
    ensures var n := |reviews| - 1;
      (set i | 0 <= i < |reviews| && reviews[i].productId == pid)
      == (set i | 0 <= i < n && reviews[..n][i].productId == pid)
         + (if reviews[n].productId == pid then {n} else {})
  {
  }

  /** One rating per review of the product: the count is the number of matching reviews. */
  lemma {:induction false} RatingsOfCount(reviews: seq<Review>, pid: ProductId)
    ensures |RatingsOf(reviews, pid)| == |set i | 0 <= i < |reviews| && reviews[i].productId == pid|
  {
    var after := set i | 0 <= i < |reviews| && reviews[i].productId == pid;
    if reviews == [] {
      assert after == {};
    } else {
      var n := |reviews| - 1;
      RatingsOfCount(reviews[..n], pid);
      ReviewIndicesSplit(reviews, pid);
      var before := set i | 0 <= i < n && reviews[..n][i].productId == pid;
      assert n !in before;
    }
  }

  /** The mean the handlers store: total over count, and 0 when there is nothing to count. */
  function Average(ratings: seq<real>): real
  {
    if |ratings| > 0 then Sum(ratings) / (|ratings| as real) else 0.0
  }

  /** The mean of ratings in 1..5 stays within 1..5, so the product's own bound of 0..5
      on averageRating always holds. */
  lemma AverageInRange(ratings: seq<real>)
    requires forall i :: 0 <= i < |ratings| ==> 1.0 <= ratings[i] <= 5.0
    ensures |ratings| > 0 ==> 1.0 <= Average(ratings) <= 5.0
    ensures |ratings| == 0 ==> Average(ratings) == 0.0
  {
    SumBounds(ratings, 1.0, 5.0);
    if |ratings| > 0 {
      QuotientBounds(Sum(ratings), |ratings| as real, 1.0, 5.0);
    }
  }

  lemma QuotientBounds(s: real, n: real, lo: real, hi: real)
    requires n > 0.0 && lo * n <= s <= hi * n
    ensures lo <= s / n <= hi
  {
    var q := s / n;
    assert q * n == s;
  }

  /** Three reviews of 4, 5 and 3 average 4; without the 3 they average 4.5. */
  lemma AverageExample()
    ensures Average([4.0, 5.0, 3.0]) == 4.0
    ensures Average([4.0, 5.0]) == 4.5
  {
    assert [4.0, 5.0, 3.0][..2] == [4.0, 5.0];
    assert [4.0, 5.0][..1] == [4.0];
    assert [4.0][..0] == [];
  }

  /** The review of this product by this user, if any: the filter of `findOneAndUpdate`. */
  function FindReview(reviews: seq<Review>, pid: ProductId, uid: UserId): (r: Option<nat>)
    ensures r.Some? ==> r.value < |reviews| && reviews[r.value].productId == pid && reviews[r.value].userId == uid
    ensures r.None? ==> forall i :: 0 <= i < |reviews| ==> !(reviews[i].productId == pid && reviews[i].userId == uid)
  {
    if reviews == [] then None
    else if reviews[0].productId == pid && reviews[0].userId == uid then Some(0)
    else match FindReview(reviews[1..], pid, uid)
      case Some(k) => Some(k + 1)
      case None => None
  }

  /** The upsert: overwrite rating and order of the existing review of the pair, or add
      a new review under `freshId`. Gives the new store and the id written. */
  function Upsert(reviews: seq<Review>, pid: ProductId, uid: UserId, oid: OrderId, rating: real, freshId: ReviewId)
    : (seq<Review>, ReviewId)
  {
    match FindReview(reviews, pid, uid)
    case Some(i) => (reviews[i := reviews[i].(rating := rating, orderId := oid)], reviews[i].id)
    case None => (reviews + [Review(freshId, pid, uid, oid, rating)], freshId)
  }

  predicate HasReviewId(reviews: seq<Review>, id: ReviewId)
  {
    exists i :: 0 <= i < |reviews| && reviews[i].id == id
  }

  /** Resubmitting replaces: the store holds the pair exactly once afterwards, with the
      new rating and order, and grows only when the pair had no review. */
  lemma {:induction false} UpsertReplaces(reviews: seq<Review>, pid: ProductId, uid: UserId, oid: OrderId,
                                          rating: real, freshId: ReviewId)
    requires ReviewsAreStored(reviews) && !HasReviewId(reviews, freshId) && 1.0 <= rating <= 5.0
    ensures var (rs, wid) := Upsert(reviews, pid, uid, oid, rating, freshId);
      && ReviewsAreStored(rs)
      && |rs| == |reviews| + (if FindReview(reviews, pid, uid).Some? then 0 else 1)
      && (exists i :: 0 <= i < |rs| && rs[i] == Review(wid, pid, uid, oid, rating))
      && |RatingsOf(rs, pid)| == |RatingsOf(reviews, pid)| + (if FindReview(reviews, pid, uid).Some? then 0 else 1)
    ensures var (rs, wid) := Upsert(reviews, pid, uid, oid, rating, freshId);
      && (forall j :: 0 <= j < |reviews| && !(reviews[j].productId == pid && reviews[j].userId == uid) ==>
            rs[j] == reviews[j])
      && (FindReview(reviews, pid, uid).Some? ==>
            var i := FindReview(reviews, pid, uid).value;
            wid == reviews[i].id && rs[i] == Review(reviews[i].id, pid, uid, oid, rating))
      && (FindReview(reviews, pid, uid).None? ==>
            wid == freshId && rs[..|reviews|] == reviews && rs[|reviews|] == Review(freshId, pid, uid, oid, rating))
  {
    var (rs, wid) := Upsert(reviews, pid, uid, oid, rating, freshId);
    match FindReview(reviews, pid, uid)
    case Some(i) =>
      RatingsCountUpdate(reviews, i, rating, oid);
      assert rs[i] == Review(wid, pid, uid, oid, rating);
    case None =>
      RatingsCountAppend(reviews, Review(freshId, pid, uid, oid, rating), pid);
      assert rs[|reviews|] == Review(wid, pid, uid, oid, rating);
  }

  /** The invariant of the review store. */
  predicate ReviewsAreStored(reviews: seq<Review>)
  {
    IdsDistinct(reviews) && AllValid(reviews) && OnePerProductAndUser(reviews)
  }

  lemma RatingsCountAppend(reviews: seq<Review>, r: Review, pid: ProductId)
    ensures RatingsOf(reviews + [r], pid) == RatingsOf(reviews, pid) + (if r.productId == pid then [r.rating] else [])
  {
    assert (reviews + [r])[..|reviews|] == reviews;
  }

  /** Changing a review's rating or order keeps the number of its product's ratings. */
  lemma {:induction false} RatingsCountUpdate(reviews: seq<Review>, i: nat, rating: real, oid: OrderId)
    requires i < |reviews|
    ensures forall pid :: |RatingsOf(reviews[i := reviews[i].(rating := rating, orderId := oid)], pid)| == |RatingsOf(reviews, pid)|
    decreases |reviews|
  {
    var updated := reviews[i := reviews[i].(rating := rating, orderId := oid)];
    var n := |reviews| - 1;
    if i == n {
      assert updated[..n] == reviews[..n];
    } else {
      RatingsCountUpdate(reviews[..n], i, rating, oid);
      assert updated[..n] == reviews[..n][i := reviews[i].(rating := rating, orderId := oid)];
    }
  }

  /** `Review.findByIdAndDelete(id)`. */
  function RemoveById(reviews: seq<Review>, id: ReviewId): (r: seq<Review>)
    ensures |r| <= |reviews|
  {
    if reviews == [] then []
    else
      var rest := RemoveById(reviews[..|reviews| - 1], id);
      if reviews[|reviews| - 1].id == id then rest else rest + [reviews[|reviews| - 1]]
  }

  /** Deleting by id removes exactly the reviews with that id and keeps the store's invariant. */
  lemma {:induction false} RemoveByIdMembers(reviews: seq<Review>, id: ReviewId)
    ensures forall x :: x in RemoveById(reviews, id) <==> x in reviews && x.id != id
    ensures ReviewsAreStored(reviews) ==> ReviewsAreStored(RemoveById(reviews, id))
  {
    if reviews != [] {
      var init := reviews[..|reviews| - 1];
      var last := reviews[|reviews| - 1];
      RemoveByIdMembers(init, id);
      assert reviews == init + [last];
      if ReviewsAreStored(reviews) {
        assert ReviewsAreStored(init);
        var rest := RemoveById(init, id);
        if last.id != id {
          forall k | 0 <= k < |rest|
            ensures rest[k].id != last.id
            ensures !(rest[k].productId == last.productId && rest[k].userId == last.userId)
          {
            assert rest[k] in init;
          }
        }
      }
    }
  }

  /** The rollback after a missing product deletes the review the upsert wrote: when
      the pair already had a review, that earlier review is gone too. */
  lemma RollbackLosesOverwritten(reviews: seq<Review>, pid: ProductId, uid: UserId, oid: OrderId,
                                 rating: real, freshId: ReviewId)
    requires ReviewsAreStored(reviews) && !HasReviewId(reviews, freshId) && 1.0 <= rating <= 5.0
    ensures var (rs, wid) := Upsert(reviews, pid, uid, oid, rating, freshId);
      var after := RemoveById(rs, wid);
      (forall x :: x in after ==> !(x.productId == pid && x.userId == uid))
      && (FindReview(reviews, pid, uid).Some? ==> |after| == |reviews| - 1)
      && (FindReview(reviews, pid, uid).None? ==> after == reviews)
  {
    var (rs, wid) := Upsert(reviews, pid, uid, oid, rating, freshId);
    RemoveByIdMembers(rs, wid);
    UpsertReplaces(reviews, pid, uid, oid, rating, freshId);
    forall x | x in RemoveById(rs, wid) ensures !(x.productId == pid && x.userId == uid) {
      var k :| 0 <= k < |rs| && rs[k] == x;
      var j :| 0 <= j < |rs| && rs[j] == Review(wid, pid, uid, oid, rating);
    }
    match FindReview(reviews, pid, uid)
    case Some(i) =>
      RemoveByIdCount(rs, i);
    case None =>
      RemoveFreshAppended(reviews, Review(freshId, pid, uid, oid, rating));
  }

  /** In a store with distinct ids, deleting the id at index i removes one review. */
  lemma {:induction false} RemoveByIdCount(reviews: seq<Review>, i: nat)
    requires i < |reviews| && IdsDistinct(reviews)
    ensures |RemoveById(reviews, reviews[i].id)| == |reviews| - 1
  {
    var init := reviews[..|reviews| - 1];
    if i == |reviews| - 1 {
      RemoveAbsentId(init, reviews[i].id);
    } else {
      RemoveByIdCount(init, i);
    }
  }

  lemma {:induction false} RemoveAbsentId(reviews: seq<Review>, id: ReviewId)
    requires !HasReviewId(reviews, id)
    ensures RemoveById(reviews, id) == reviews
  {
    if reviews != [] {
      RemoveAbsentId(reviews[..|reviews| - 1], id);
    }
  }

  lemma RemoveFreshAppended(reviews: seq<Review>, r: Review)
    requires !HasReviewId(reviews, r.id)
    ensures RemoveById(reviews + [r], r.id) == reviews
  {
    assert (reviews + [r])[..|reviews|] == reviews;
    RemoveAbsentId(reviews, r.id);
  }

  /** The product with its aggregate recomputed from the given reviews. */
  function WithAggregate(p: ProductModel.Product, reviews: seq<Review>, pid: ProductId): ProductModel.Product
  {
    var ratings := RatingsOf(reviews, pid);
    p.(averageRating := Average(ratings), totalReviews := |ratings|)
  }

  lemma WithAggregateValid(p: ProductModel.Product, reviews: seq<Review>, pid: ProductId)
    requires ProductModel.FieldsValid(p) && AllValid(reviews)
    ensures ProductModel.FieldsValid(WithAggregate(p, reviews, pid))
  {
    RatingsInRange(reviews, pid);
    AverageInRange(RatingsOf(reviews, pid));
  }

  /** Recomputing one product's aggregate keeps every product within its schema. */
  lemma StoreAggregate(products: map<ProductId, ProductModel.Product>, pid: ProductId, reviews: seq<Review>)
    requires Store.ProductsValid(products) && pid in products && AllValid(reviews)
    ensures Store.ProductsValid(products[pid := WithAggregate(products[pid], reviews, pid)])
  {
    WithAggregateValid(products[pid], reviews, pid);
  }

  /** After a submission the product has at least one rating. */
  lemma UpsertCountsReview(reviews: seq<Review>, pid: ProductId, uid: UserId, oid: OrderId,
                           rating: real, freshId: ReviewId)
    requires ReviewsAreStored(reviews) && !HasReviewId(reviews, freshId) && 1.0 <= rating <= 5.0
    ensures |RatingsOf(Upsert(reviews, pid, uid, oid, rating, freshId).0, pid)| >= 1
  {
    UpsertReplaces(reviews, pid, uid, oid, rating, freshId);
    var (rs, wid) := Upsert(reviews, pid, uid, oid, rating, freshId);
    var j :| 0 <= j < |rs| && rs[j] == Review(wid, pid, uid, oid, rating);
    RatingsOfNonEmpty(rs, pid, j);
  }

  /** createReview. Rating first, then the order gate, all before any write; then the
      upsert, the recomputation, and the rollback when the product is gone. */
  method CreateReview(db: Store.Db, p: Principal, pid: ProductId, orderId: OrderId,
                      rating: Option<real>, freshId: ReviewId)
    returns (r: Result<Review>)
    requires Store.ReviewsValid(db.reviews) && Store.ProductsValid(db.products) && !HasReviewId(db.reviews, freshId)
    modifies db`reviews, db`products
    ensures Store.ReviewsValid(db.reviews) && Store.ProductsValid(db.products)
    ensures RatingCheck(rating).Some? ==>
      r == Err(RatingCheck(rating).value) && db.reviews == old(db.reviews) && db.products == old(db.products)
    ensures RatingCheck(rating).None? && OrderGate(db.orders, p, pid, orderId).Some? ==>
      r == Err(OrderGate(db.orders, p, pid, orderId).value) && db.reviews == old(db.reviews) && db.products == old(db.products)
    ensures RatingCheck(rating).None? && OrderGate(db.orders, p, pid, orderId).None? ==>
      var (rs, wid) := Upsert(old(db.reviews), pid, p.userId, orderId, rating.value, freshId);
      if pid in old(db.products) then
        r == Ok(Review(wid, pid, p.userId, orderId, rating.value))
        && db.reviews == rs
        && db.products == old(db.products)[pid := WithAggregate(old(db.products)[pid], rs, pid)]
        && db.products[pid].totalReviews == |RatingsOf(rs, pid)| >= 1
      else
        r == Err(NotFound("Product not found")) && db.reviews == RemoveById(rs, wid) && db.products == old(db.products)
  {
    var check := RatingCheck(rating);
    if check.Some? {
      return Err(check.value);
    }
    var gate := OrderGate(db.orders, p, pid, orderId);
    if gate.Some? {
      return Err(gate.value);
    }
    UpsertReplaces(db.reviews, pid, p.userId, orderId, rating.value, freshId);
    var (rs, wid) := Upsert(db.reviews, pid, p.userId, orderId, rating.value, freshId);
    db.reviews := rs;
    if pid in db.products {
      UpsertCountsReview(old(db.reviews), pid, p.userId, orderId, rating.value, freshId);
      StoreAggregate(db.products, pid, rs);
      db.products := db.products[pid := WithAggregate(db.products[pid], rs, pid)];
      r := Ok(Review(wid, pid, p.userId, orderId, rating.value));
    } else {
      RemoveByIdMembers(rs, wid);
      db.reviews := RemoveById(rs, wid);
      r := Err(NotFound("Product not found"));
    }
  }

  /** `Review.findById`. */
  function FindReviewById(reviews: seq<Review>, id: ReviewId): (r: Option<nat>)
    ensures r.Some? ==> r.value < |reviews| && reviews[r.value].id == id
    ensures r.None? <==> !HasReviewId(reviews, id)
  {
    if reviews == [] then None
    else if reviews[|reviews| - 1].id == id then Some(|reviews| - 1)
    else FindReviewById(reviews[..|reviews| - 1], id)
  }

  /** deleteReview: unknown id, then someone else's review, are refused without change;
      otherwise the review goes and its product's aggregate is recomputed from the rest,
      0 when none remain. A product that no longer exists is left alone. */
  method DeleteReview(db: Store.Db, p: Principal, reviewId: ReviewId) returns (r: Result<()>)
    requires Store.ReviewsValid(db.reviews) && Store.ProductsValid(db.products)
    modifies db`reviews, db`products
    ensures Store.ReviewsValid(db.reviews) && Store.ProductsValid(db.products)
    ensures r.Err? ==> db.reviews == old(db.reviews) && db.products == old(db.products)
    ensures !HasReviewId(old(db.reviews), reviewId) ==> r == Err(NotFound("Review not found"))
    ensures HasReviewId(old(db.reviews), reviewId) ==>
      var review := old(db.reviews)[FindReviewById(old(db.reviews), reviewId).value];
      var rest := RemoveById(old(db.reviews), reviewId);
      if review.userId != p.userId then r == Err(Forbidden("Not authorized to delete this review"))
      else
        r == Ok(()) && db.reviews == rest
        && db.products == (if review.productId in old(db.products)
                           then old(db.products)[review.productId := WithAggregate(old(db.products)[review.productId], rest, review.productId)]
                           else old(db.products))
  {
    var index := FindReviewById(db.reviews, reviewId);
    if index.None? {
      return Err(NotFound("Review not found"));
    }
    var review := db.reviews[index.value];
    if review.userId != p.userId {
      return Err(Forbidden("Not authorized to delete this review"));
    }
    var pid := review.productId;
    RemoveByIdMembers(db.reviews, reviewId);
    db.reviews := RemoveById(db.reviews, reviewId);
    if pid in db.products {
      WithAggregateValid(db.products[pid], db.reviews, pid);
      db.products := db.products[pid := WithAggregate(db.products[pid], db.reviews, pid)];
    }
    r := Ok(());
  }
}
