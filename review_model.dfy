/** The review document: who rated which product, through which order, and how much. */
module ReviewModel {
  import opened Common

  datatype Review = Review(id: ReviewId, productId: ProductId, userId: UserId, orderId: OrderId, rating: real)

  /** The schema bounds the rating to 1..5; it does not require an integer. */
  predicate ReviewValid(r: Review)
  {
    1.0 <= r.rating <= 5.0
  }

  predicate AllValid(reviews: seq<Review>)
  {
    forall i :: 0 <= i < |reviews| ==> ReviewValid(reviews[i])
  }

  predicate IdsDistinct(reviews: seq<Review>)
  {
    forall i, j :: 0 <= i < j < |reviews| ==> reviews[i].id != reviews[j].id
  }

  /** The schema declares no unique index on (productId, userId); this is what the
      upsert in the review handler maintains on its own. */
  predicate OnePerProductAndUser(reviews: seq<Review>)
  {
    forall i, j :: 0 <= i < j < |reviews| ==>
      !(reviews[i].productId == reviews[j].productId && reviews[i].userId == reviews[j].userId)
  }

  /** A store with two reviews of one product by one user is a valid store as far as the
      schema goes: nothing but the handler rules it out. */
  lemma SchemaAllowsDuplicatePair(r1: Review, r2: Review)
    requires r1.id != r2.id && r1.productId == r2.productId && r1.userId == r2.userId
    requires ReviewValid(r1) && ReviewValid(r2)
    ensures AllValid([r1, r2]) && IdsDistinct([r1, r2])
    ensures !OnePerProductAndUser([r1, r2])
  {
    assert [r1, r2][0] == r1 && [r1, r2][1] == r2;
  }
}
