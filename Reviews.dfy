/**
 * Product reviews: controllers/reviewController.js over the `Review` record of
 * models/Review.js and the orders collection.
 *
 * `Number(req.params.productId)` is an input, None standing for NaN; `!pid` refuses both NaN
 * and 0. The body's `rating` is what Mongoose's Number cast makes of it (None when it is
 * absent or does not cast) and an absent `comment` is the empty string, which the required
 * validator refuses. `req.user` is the decoded token; an absent `id` is the empty string.
 */
module Reviews {
  import opened Wrappers
  import opened Http
  import opened Query
  import opened OrderModel

  datatype Review = Review(
    docId: nat,
    productId: real,
    userId: string,
    userEmail: string,
    rating: real,
    comment: string,
    createdAt: int)

  /** What `Review.create` validates: `userId`, `rating` and `comment` required, `rating` in 1..5. */
  predicate ReviewAccepts(r: Review) {
    && r.userId != ""
    && 1.0 <= r.rating <= 5.0
    && r.comment != ""
  }

  /** What the reviews collection guarantees of each document: `_id` is the position, validation passed. */
  predicate ReviewsWellFormed(reviews: seq<Review>) {
    forall i :: 0 <= i < |reviews| ==> reviews[i].docId == i && ReviewAccepts(reviews[i])
  }

  /** At most one review per user and product; the handler keeps this, the schema does not. */
  predicate OnePerUserAndProduct(reviews: seq<Review>) {
    forall i, j :: 0 <= i < j < |reviews| ==>
      reviews[i].productId != reviews[j].productId || reviews[i].userId != reviews[j].userId
  }

  function ReviewInserted(reviews: seq<Review>, r: Review): (s: seq<Review>)
    ensures |s| == |reviews| + 1 && s[..|reviews|] == reviews && s[|reviews|] == r.(docId := |reviews|)
  {
    reviews + [r.(docId := |reviews|)]
  }

  // ---------------------------------------------------------------- queries

  /** `if (!pid)`: NaN and 0 are refused. */
  predicate ValidProduct(pid: Option<real>) {
    pid.Some? && pid.value != 0.0
  }

  /** The order matches `{ 'items.productId': p, buyerEmail: email, status: 'Delivered' }`. */
  predicate DeliveredWith(o: Order, p: real, email: string) {
    && o.buyerEmail == email
    && o.status == Delivered
    && exists k :: 0 <= k < |o.items| && o.items[k].productId == NumberId(p)
  }

  /** `Order.exists(...)`: some stored order is a delivered purchase of p by email. */
  predicate HasBought(orders: seq<Order>, p: real, email: string) {
    exists i :: 0 <= i < |orders| && DeliveredWith(orders[i], p, email)
  }

  function ReviewBy(p: real, userId: string): Review -> bool {
    (r: Review) => r.productId == p && r.userId == userId
  }

  /** `Review.findOne({ productId: pid, userId })`. */
  function FindReview(reviews: seq<Review>, p: real, userId: string): (r: Option<nat>)
    ensures r.None? <==> forall i :: 0 <= i < |reviews| ==> !(reviews[i].productId == p && reviews[i].userId == userId)
    ensures r.Some? ==> r.value < |reviews| && reviews[r.value].productId == p && reviews[r.value].userId == userId
  {
    FirstIndex(reviews, ReviewBy(p, userId))
  }

  // ---------------------------------------------------------------- addReview

  /** A handler's reply and the reviews collection after it. */
  datatype ReviewOutcome = ReviewOutcome(reply: Reply<Review>, reviews: seq<Review>)

  /** The body of a review request and the token fields it uses. */
  datatype ReviewRequest = ReviewRequest(
    pid: Option<real>,
    userEmail: string,
    userId: string,
    rating: Option<real>,
    comment: string)

  /** The document `Review.create` is asked to store; an uncastable rating does not get this far. */
  function Drafted(q: ReviewRequest, now: int): Review
    requires q.pid.Some? && q.rating.Some?
  {
    Review(0, q.pid.value, q.userId, q.userEmail, q.rating.value, q.comment, now)
  }

  /** `addReview`: the guard chain, then one insert; a failed validation is the catch's 500. */
  function AddReview(orders: seq<Order>, reviews: seq<Review>, q: ReviewRequest, now: int): ReviewOutcome {
    if !ValidProduct(q.pid) then
      ReviewOutcome(Fail(BadRequest, "Invalid product"), reviews)
    else if !HasBought(orders, q.pid.value, q.userEmail) then
      ReviewOutcome(Fail(Forbidden, "You can review only delivered products"), reviews)
    else if FindReview(reviews, q.pid.value, q.userId).Some? then
      ReviewOutcome(Fail(BadRequest, "You already reviewed this product"), reviews)
    else if q.rating.None? || !ReviewAccepts(Drafted(q, now)) then
      ReviewOutcome(Fail(ServerError, "Failed to add review"), reviews)
    else
      var s := ReviewInserted(reviews, Drafted(q, now));
      ReviewOutcome(Ok(s[|reviews|]), s)
  }

  /** The reviews collection. Every handler runs as one step; `reviews` is in insertion order. */
  class ReviewStore {
    var reviews: seq<Review>

    ghost predicate Valid()
      reads this
    {
      ReviewsWellFormed(reviews)
    }

    constructor ()
      ensures Valid() && reviews == []
    {
      reviews := [];
    }

    /** `Review.create(doc)`: validate, then insert with the next `_id`, or refuse and change nothing. */
    method Create(r: Review) returns (ok: bool)
      requires Valid()
      modifies this
      ensures Valid()
      ensures ok == ReviewAccepts(r)
      ensures reviews == if ok then ReviewInserted(old(reviews), r) else old(reviews)
    {
      ok := r.userId != "" && 1.0 <= r.rating <= 5.0 && r.comment != "";
      if ok {
        reviews := ReviewInserted(reviews, r);
      }
    }
  }

  method AddReviewHandler(store: ReviewStore, orders: seq<Order>, q: ReviewRequest, now: int) returns (reply: Reply<Review>)
    requires store.Valid()
    modifies store
    ensures store.Valid()
    ensures ReviewOutcome(reply, store.reviews) == AddReview(orders, old(store.reviews), q, now)
  {
    if !ValidProduct(q.pid) {
      return Fail(BadRequest, "Invalid product");
    }
    var pid := q.pid.value;
    var hasBought := HasBought(orders, pid, q.userEmail);
    if !hasBought {
      return Fail(Forbidden, "You can review only delivered products");
    }
    var existing := FindReview(store.reviews, pid, q.userId);
    if existing.Some? {
      return Fail(BadRequest, "You already reviewed this product");
    }
    if q.rating.None? {
      return Fail(ServerError, "Failed to add review");
    }
    var n := |store.reviews|;
    var ok := store.Create(Drafted(q, now));
    if !ok {
      return Fail(ServerError, "Failed to add review");
    }
    reply := Ok(store.reviews[n]);
  }

  /**
   * The guards run in a fixed order, product, purchase, duplicate, validation, and every
   * refusal leaves the reviews as they were. A request that passes them all inserts exactly
   * one review with the request's product, user, email, rating and comment, stamped `now`.
   */
  lemma AddReviewCases(orders: seq<Order>, reviews: seq<Review>, q: ReviewRequest, now: int)
    ensures var out := AddReview(orders, reviews, q, now);
      && (out.reply.Fail? ==> out.reviews == reviews)
      && (!ValidProduct(q.pid) ==> out.reply == Fail(BadRequest, "Invalid product"))
      && (ValidProduct(q.pid) && !HasBought(orders, q.pid.value, q.userEmail) ==>
            out.reply == Fail(Forbidden, "You can review only delivered products"))
      && (ValidProduct(q.pid) && HasBought(orders, q.pid.value, q.userEmail)
          && (exists i :: 0 <= i < |reviews| && reviews[i].productId == q.pid.value && reviews[i].userId == q.userId) ==>
            out.reply == Fail(BadRequest, "You already reviewed this product"))
      && (out.reply.Ok? <==>
            && ValidProduct(q.pid) && HasBought(orders, q.pid.value, q.userEmail)
            && (forall i :: 0 <= i < |reviews| ==> !(reviews[i].productId == q.pid.value && reviews[i].userId == q.userId))
            && q.rating.Some? && 1.0 <= q.rating.value <= 5.0 && q.comment != "" && q.userId != "")
      && (out.reply.Ok? ==>
            && out.reviews == reviews + [out.reply.body]
            && out.reply.body == Review(|reviews|, q.pid.value, q.userId, q.userEmail, q.rating.value, q.comment, now))
  {
    if ValidProduct(q.pid) && HasBought(orders, q.pid.value, q.userEmail) {
      var f := FindReview(reviews, q.pid.value, q.userId);
      if f.Some? {
        assert reviews[f.value].productId == q.pid.value && reviews[f.value].userId == q.userId;
      }
    }
  }

  /** addReview keeps both guarantees: every stored review validated, and one per user and product. */
  lemma AddReviewKeepsInvariants(orders: seq<Order>, reviews: seq<Review>, q: ReviewRequest, now: int)
    requires ReviewsWellFormed(reviews) && OnePerUserAndProduct(reviews)
    ensures var out := AddReview(orders, reviews, q, now);
      ReviewsWellFormed(out.reviews) && OnePerUserAndProduct(out.reviews)
  {
    var out := AddReview(orders, reviews, q, now);
    if out.reply.Ok? {
      AddReviewCases(orders, reviews, q, now);
      var s := out.reviews;
      forall i, j | 0 <= i < j < |s| ensures s[i].productId != s[j].productId || s[i].userId != s[j].userId {
        assert s[i] == reviews[i];
        if j < |reviews| {
          assert s[j] == reviews[j];
        }
      }
      forall i | 0 <= i < |s| ensures s[i].docId == i && ReviewAccepts(s[i]) {
        if i < |reviews| {
          assert s[i] == reviews[i];
        }
      }
    }
  }

  /** Sending the same review again, once the first was stored, is refused as a duplicate. */
  lemma AddReviewTwice(orders: seq<Order>, reviews: seq<Review>, q: ReviewRequest, now: int, later: int)
    requires AddReview(orders, reviews, q, now).reply.Ok?
    ensures var once := AddReview(orders, reviews, q, now).reviews;
      AddReview(orders, once, q, later) == ReviewOutcome(Fail(BadRequest, "You already reviewed this product"), once)
  {
    AddReviewCases(orders, reviews, q, now);
    var once := AddReview(orders, reviews, q, now).reviews;
    assert once[|reviews|].productId == q.pid.value && once[|reviews|].userId == q.userId;
  }

  // ---------------------------------------------------------------- getReviewsByProduct

  function ForProduct(p: real): Review -> bool {
    (r: Review) => r.productId == p
  }

  function ReviewCreatedAt(r: Review): int { r.createdAt }

  /** `getReviewsByProduct`: nothing for an invalid id, else the product's reviews newest first. */
  function ReviewsByProduct(reviews: seq<Review>, pid: Option<real>): seq<Review> {
    if !ValidProduct(pid) then []
    else SortDesc(Filter(reviews, ForProduct(pid.value)), ReviewCreatedAt)
  }

  /**
   * For a valid id the list holds every review of that product, each as often as stored,
   * no review of another product, newest first; for NaN or 0 it is empty.
   */
  lemma ReviewsByProductSpec(reviews: seq<Review>, pid: Option<real>)
    ensures var r := ReviewsByProduct(reviews, pid);
      && (!ValidProduct(pid) ==> r == [])
      && (ValidProduct(pid) ==>
            && SortedDesc(r, ReviewCreatedAt)
            && (forall i :: 0 <= i < |r| ==> r[i].productId == pid.value)
            && (forall x :: multiset(r)[x] == if x.productId == pid.value then multiset(reviews)[x] else 0))
  {
    if ValidProduct(pid) {
      SortedFilter(reviews, ForProduct(pid.value), ReviewCreatedAt);
    }
  }
}
