/**
 * Post-processing of community reviews for a Destiny 2 item: the review
 * comparator, the translation of a fetched response, the marking of the
 * user's own reviews (in place) and the cache short-circuits of the fetch.
 * The fetch itself, `toUtcTime` and `conditionallyIgnoreReviews` are not part
 * of this model: the fetched response, the time conversion and the
 * sort-and-ignore step are parameters.
 */
module ReviewsFetcher {
  import opened Wrappers

  datatype Reviewer = Reviewer(membershipId: string)

  /** `D2ItemUserReview`; `timestamp` is in milliseconds once translated. */
  datatype Review = Review(
    reviewer: Reviewer,
    isReviewer: bool,
    isHighlighted: bool,
    voted: int,
    timestamp: int,
    text: string)

  /** `D2ItemReviewResponse`. */
  datatype ReviewResponse = ReviewResponse(reviews: seq<Review>, lastUpdated: Option<int>, reviewCount: int)

  datatype Account = Account(membershipId: string)

  // ---------------------------------------------------------------------------
  // The comparator
  // ---------------------------------------------------------------------------

  /**
   * The intended priority, as a strict lexicographic order: own reviews, then
   * highlighted ones, then more votes, then newer.
   */
  predicate RanksBefore(a: Review, b: Review) {
    || (a.isReviewer && !b.isReviewer)
    || (a.isReviewer == b.isReviewer &&
        (|| (a.isHighlighted && !b.isHighlighted)
         || (a.isHighlighted == b.isHighlighted &&
             (a.voted > b.voted || (a.voted == b.voted && a.timestamp > b.timestamp)))))
  }

  /**
   * Two reviews the comparator cannot order: both the user's, or neither the user's
   * and both highlighted.
   */
  predicate Tied(a: Review, b: Review) {
    (a.isReviewer && b.isReviewer) || (!a.isReviewer && !b.isReviewer && a.isHighlighted && b.isHighlighted)
  }

  /**
   * `sortReviews`: negative puts `a` first. Outside a tie its sign follows the priority
   * order in both directions; in a tie the first argument is put first.
   */
  function SortReviews(a: Review, b: Review): (r: int)
    ensures !Tied(a, b) ==> (r < 0 <==> RanksBefore(a, b)) && (r > 0 <==> RanksBefore(b, a))
    ensures !Tied(a, b) ==> (r == 0 <==> !RanksBefore(a, b) && !RanksBefore(b, a))
    ensures Tied(a, b) ==> r < 0
  {
    if a.isReviewer then -1
    else if b.isReviewer then 1
    else if a.isHighlighted then -1
    else if b.isHighlighted then 1
    else
      var ratingDiff := b.voted - a.voted;
      if ratingDiff != 0 then ratingDiff
      else b.timestamp - a.timestamp
  }

  /** In a tie each argument order claims to come first, so the comparator is no consistent order. */
  lemma SortReviewsTiesClaimFirst(a: Review, b: Review)
    requires Tied(a, b)
    ensures SortReviews(a, b) < 0 && SortReviews(b, a) < 0
  {
  }

  // ---------------------------------------------------------------------------
  // Translation
  // ---------------------------------------------------------------------------

  /** `translateReview`: the timestamp goes through `toUtc`; nothing else changes. */
  function TranslateReview(review: Review, toUtc: int -> int): (r: Review)
    ensures r.timestamp == toUtc(review.timestamp)
    ensures r.(timestamp := review.timestamp) == review
  {
    review.(timestamp := toUtc(review.timestamp))
  }

  /** `translateReviewResponse`: the same reviews in the same order, each translated; nothing else changes. */
  function TranslateReviewResponse(response: ReviewResponse, toUtc: int -> int): (r: ReviewResponse)
    ensures |r.reviews| == |response.reviews|
    ensures r.(reviews := response.reviews) == response
    ensures forall i :: 0 <= i < |r.reviews| ==>
              r.reviews[i].timestamp == toUtc(response.reviews[i].timestamp) &&
              r.reviews[i].(timestamp := response.reviews[i].timestamp) == response.reviews[i]
  {
    response.(reviews := seq(|response.reviews|, i requires 0 <= i < |response.reviews| =>
                               TranslateReview(response.reviews[i], toUtc)))
  }

  // ---------------------------------------------------------------------------
  // Marking the user's reviews
  // ---------------------------------------------------------------------------

  /** One review after `markUserReview`. */
  function MarkOne(review: Review, account: Option<Account>): Review {
    if account.Some? && review.reviewer.membershipId == account.value.membershipId
    then review.(isReviewer := true)
    else review
  }

  /** The reviews after `markUserReview`. */
  function Marked(reviews: seq<Review>, account: Option<Account>): (r: seq<Review>)
    ensures |r| == |reviews|
  {
    seq(|reviews|, i requires 0 <= i < |reviews| => MarkOne(reviews[i], account))
  }

  /**
   * `markUserReview` flags exactly the reviews written by the account's member, changes
   * nothing else about them, leaves every review alone without an account, and is idempotent.
   */
  lemma MarkingFacts(reviews: seq<Review>, account: Option<Account>)
    ensures var r := Marked(reviews, account);
      && (forall i :: 0 <= i < |r| ==>
            (r[i].isReviewer <==> reviews[i].isReviewer ||
                                  (account.Some? && reviews[i].reviewer.membershipId == account.value.membershipId)))
      && (forall i :: 0 <= i < |r| ==> r[i].(isReviewer := reviews[i].isReviewer) == reviews[i])
      && (account.None? ==> r == reviews)
      && Marked(r, account) == r
  {
    var r := Marked(reviews, account);
    if account.None? {
      assert r == reviews;
    }
    assert Marked(r, account) == r;
  }

  /** Marking and translating touch different fields, so their order does not matter. */
  lemma MarkingCommutesWithTranslation(response: ReviewResponse, account: Option<Account>, toUtc: int -> int)
    ensures Marked(TranslateReviewResponse(response, toUtc).reviews, account) ==
            TranslateReviewResponse(response.(reviews := Marked(response.reviews, account)), toUtc).reviews
  {
  }

  /** `markUserReview`, on the response's review array, in place. */
  method MarkUserReview(account: Option<Account>, reviews: array<Review>)
    modifies reviews
    ensures reviews[..] == Marked(old(reviews[..]), account)
  {
    if account.None? {
      assert reviews[..] == Marked(reviews[..], account);
      return;
    }
    var membershipId := account.value.membershipId;
    for i := 0 to reviews.Length
      invariant forall j :: 0 <= j < i ==> reviews[j] == MarkOne(old(reviews[j]), account)
      invariant forall j :: i <= j < reviews.Length ==> reviews[j] == old(reviews[j])
    {
      if reviews[i].reviewer.membershipId == membershipId {
        reviews[i] := reviews[i].(isReviewer := true);
      }
    }
    assert reviews[..] == Marked(old(reviews[..]), account);
  }

  // ---------------------------------------------------------------------------
  // The fetch action
  // ---------------------------------------------------------------------------

  /** What `getItemReviewsD2` resolves to, and whether it went to the network (and dispatched `reviewsLoaded`). */
  datatype ReviewsOutcome = ReviewsOutcome(result: Option<ReviewResponse>, fetched: bool)

  /**
   * `getItemReviewsD2`: `existing` is what the store already holds for the item,
   * `fetchedResponse` what the service would answer, `sortAndIgnore` the
   * sort-and-ignore step and `now` the time of `new Date()`.
   */
  function GetItemReviewsD2(reviewable: bool, existing: Option<ReviewResponse>, fetchedResponse: ReviewResponse,
                            account: Option<Account>, toUtc: int -> int,
                            sortAndIgnore: seq<Review> -> seq<Review>, now: int): (r: ReviewsOutcome)
    ensures !reviewable ==> r == ReviewsOutcome(None, false)
    ensures reviewable && existing.Some? ==> r == ReviewsOutcome(existing, false)
    ensures r.fetched <==> reviewable && existing.None?
    ensures r.fetched ==> r.result.Some? && r.result.value.lastUpdated == Some(now) &&
                          r.result.value.reviewCount == fetchedResponse.reviewCount
  {
    if !reviewable then ReviewsOutcome(None, false)
    else if existing.Some? then ReviewsOutcome(existing, false)
    else
      var reviewData := TranslateReviewResponse(fetchedResponse, toUtc);
      var marked := reviewData.(reviews := Marked(reviewData.reviews, account));
      var sorted := marked.(reviews := sortAndIgnore(marked.reviews));
      ReviewsOutcome(Some(sorted.(lastUpdated := Some(now))), true)
  }

  /** A fetched response hands the sort-and-ignore step the translated reviews with the user's own flagged. */
  lemma FetchedReviewsAreMarked(reviewable: bool, fetchedResponse: ReviewResponse, account: Option<Account>,
                                toUtc: int -> int, sortAndIgnore: seq<Review> -> seq<Review>, now: int)
    requires reviewable
    ensures var r := GetItemReviewsD2(reviewable, None, fetchedResponse, account, toUtc, sortAndIgnore, now);
      var handed := Marked(TranslateReviewResponse(fetchedResponse, toUtc).reviews, account);
      && r.result.value.reviews == sortAndIgnore(handed)
      && |handed| == |fetchedResponse.reviews|
      && (forall i :: 0 <= i < |handed| ==>
            handed[i].timestamp == toUtc(fetchedResponse.reviews[i].timestamp) &&
            (account.Some? && handed[i].reviewer.membershipId == account.value.membershipId ==> handed[i].isReviewer))
  {
  }
}
