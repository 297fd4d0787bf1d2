/** The periodic tally of resource states (internal/metrics/collector.go). Totals are whole
    numbers here. */
module Metrics {
  import opened Api

  /* ---------- counting ---------- */

  /** How many of `items` are in state `k`. */
  function Count<T, K(==)>(getState: T -> K, items: seq<T>, k: K): nat {
    if items == [] then 0
    else Count(getState, items[..|items| - 1], k) + if getState(items[|items| - 1]) == k then 1 else 0
  }

  function Total<K>(totals: map<K, nat>, k: K): nat {
    if k in totals then totals[k] else 0
  }

  function InitRequestStateMap(): map<RequestState, nat> {
    map[Pending := 0, Approved := 0, Rejected := 0, Started := 0, Complete := 0, Failed := 0, Malformed := 0]
  }

  function InitReviewStateMap(): map<ReviewState, nat> {
    map[ReviewApproved := 0, ReviewRejected := 0, ReviewMalformed := 0, ReviewNotFound := 0, ReviewConflict := 0]
  }

  predicate RequestGauged(state: RequestState) {
    match state
    case Unset => false
    case Conflicted => false
    case Unlisted(_) => false
    case _ => true
  }

  predicate ReviewGauged(state: ReviewState) {
    !state.Undecided? && !state.ReviewUnlisted?
  }

  /** Each item adds one to the total of its state, which is made if it was not there. */
  method TallyResourceState<T, K(==, !new)>(getState: T -> K, totals: map<K, nat>, items: seq<T>) returns (r: map<K, nat>)
    ensures totals.Keys <= r.Keys
    ensures forall k :: Total(r, k) == Total(totals, k) + Count(getState, items, k)
  {
    r := totals;
    for i := 0 to |items|
      invariant totals.Keys <= r.Keys
      invariant forall k :: Total(r, k) == Total(totals, k) + Count(getState, items[..i], k)
    {
      assert items[..i + 1][..i] == items[..i];
      var state := getState(items[i]);
      r := r[state := Total(r, state) + 1];
    }
    assert items[..|items|] == items;
  }

  function RequestStateOf(jr: JobRequest): RequestState {
    jr.status.state
  }

  function ReviewStateOf(rv: Review): ReviewState {
    rv.state
  }

  /** How many of the listed requests have this state in their status. */
  function RequestsIn(items: seq<JobRequest>, state: RequestState): nat {
    |RequestPlaces(items, state)|
  }

  function RequestPlaces(items: seq<JobRequest>, state: RequestState): set<int> {
    set i | 0 <= i < |items| && items[i].status.state == state
  }

  function ReviewsIn(items: seq<Review>, state: ReviewState): nat {
    |ReviewPlaces(items, state)|
  }

  function ReviewPlaces(items: seq<Review>, state: ReviewState): set<int> {
    set i | 0 <= i < |items| && items[i].state == state
  }

  lemma OneMore<T>(before: set<T>, now: set<T>, n: T, more: bool)
    requires n !in before
    requires forall i | i in now :: i in before || (more && i == n)
    requires forall i | i in before :: i in now
    requires more ==> n in now
    ensures |now| == |before| + if more then 1 else 0
  {
    if more {
      assert now == before + {n};
    } else {
      assert now == before;
    }
  }

  lemma RequestsGrow(items: seq<JobRequest>, state: RequestState)
    requires items != []
    ensures RequestsIn(items, state)
            == RequestsIn(items[..|items| - 1], state) + if items[|items| - 1].status.state == state then 1 else 0
  {
    var n, init := |items| - 1, items[..|items| - 1];
    OneMore(RequestPlaces(init, state), RequestPlaces(items, state), n, items[n].status.state == state);
  }

  lemma ReviewsGrow(items: seq<Review>, state: ReviewState)
    requires items != []
    ensures ReviewsIn(items, state)
            == ReviewsIn(items[..|items| - 1], state) + if items[|items| - 1].state == state then 1 else 0
  {
    var n, init := |items| - 1, items[..|items| - 1];
    OneMore(ReviewPlaces(init, state), ReviewPlaces(items, state), n, items[n].state == state);
  }

  /** The tally counts the requests by the state in their status, and nothing else. */
  lemma {:induction false} CountsRequests(items: seq<JobRequest>, state: RequestState)
    ensures Count(RequestStateOf, items, state) == RequestsIn(items, state)
  {
    if items != [] {
      CountsRequests(items[..|items| - 1], state);
      RequestsGrow(items, state);
    }
  }

  lemma {:induction false} CountsReviews(items: seq<Review>, state: ReviewState)
    ensures Count(ReviewStateOf, items, state) == ReviewsIn(items, state)
  {
    if items != [] {
      CountsReviews(items[..|items| - 1], state);
      ReviewsGrow(items, state);
    }
  }

  /** The totals tallied from the empty table are the numbers in each of its states. */
  lemma RequestTotals(totals: map<RequestState, nat>, items: seq<JobRequest>)
    requires InitRequestStateMap().Keys <= totals.Keys
    requires forall k :: Total(totals, k) == Total(InitRequestStateMap(), k) + Count(RequestStateOf, items, k)
    ensures forall k | RequestGauged(k) :: k in totals && totals[k] == RequestsIn(items, k)
  {
    forall k | RequestGauged(k) ensures k in totals && totals[k] == RequestsIn(items, k) {
      assert k in InitRequestStateMap() && totals[k] == Total(totals, k) && Total(InitRequestStateMap(), k) == 0;
      CountsRequests(items, k);
    }
  }

  lemma ReviewTotals(totals: map<ReviewState, nat>, items: seq<Review>)
    requires InitReviewStateMap().Keys <= totals.Keys
    requires forall k :: Total(totals, k) == Total(InitReviewStateMap(), k) + Count(ReviewStateOf, items, k)
    ensures forall k | ReviewGauged(k) :: k in totals && totals[k] == ReviewsIn(items, k)
  {
    forall k | ReviewGauged(k) ensures k in totals && totals[k] == ReviewsIn(items, k) {
      assert k in InitReviewStateMap() && totals[k] == Total(totals, k) && Total(InitReviewStateMap(), k) == 0;
      CountsReviews(items, k);
    }
  }

  /* ---------- the gauges ---------- */

  class MetricCollector {
    var requestPending: nat
    var requestApproved: nat
    var requestRejected: nat
    var requestStarted: nat
    var requestComplete: nat
    var requestFailed: nat
    var requestMalformed: nat
    var reviewApproved: nat
    var reviewRejected: nat
    var reviewMalformed: nat
    var reviewNotFound: nat
    var reviewConflict: nat

    /** The gauge of a state that has one. */
    function RequestGauge(state: RequestState): nat
      reads this
    {
      match state
      case Pending => requestPending
      case Approved => requestApproved
      case Rejected => requestRejected
      case Started => requestStarted
      case Complete => requestComplete
      case Failed => requestFailed
      case Malformed => requestMalformed
      case _ => 0
    }

    function ReviewGauge(state: ReviewState): nat
      reads this
    {
      match state
      case ReviewApproved => reviewApproved
      case ReviewRejected => reviewRejected
      case ReviewMalformed => reviewMalformed
      case ReviewNotFound => reviewNotFound
      case ReviewConflict => reviewConflict
      case _ => 0
    }

    constructor ()
      ensures forall k :: RequestGauge(k) == 0
      ensures forall k :: ReviewGauge(k) == 0
    {
      requestPending, requestApproved, requestRejected, requestStarted := 0, 0, 0, 0;
      requestComplete, requestFailed, requestMalformed := 0, 0, 0;
      reviewApproved, reviewRejected, reviewMalformed, reviewNotFound, reviewConflict := 0, 0, 0, 0, 0;
    }

    /** Set the gauge of `state`, if it has one. */
    method SetRequestGauge(state: RequestState, v: nat)
      modifies this
      ensures forall k | RequestGauged(k) :: RequestGauge(k) == if k == state then v else old(RequestGauge(k))
      ensures unchanged(`reviewApproved, `reviewRejected, `reviewMalformed, `reviewNotFound, `reviewConflict)
    {
      match state {
        case Pending => requestPending := v;
        case Approved => requestApproved := v;
        case Rejected => requestRejected := v;
        case Started => requestStarted := v;
        case Complete => requestComplete := v;
        case Failed => requestFailed := v;
        case Malformed => requestMalformed := v;
        case _ =>
      }
    }

    method SetReviewGauge(state: ReviewState, v: nat)
      modifies this
      ensures forall k | ReviewGauged(k) :: ReviewGauge(k) == if k == state then v else old(ReviewGauge(k))
      ensures unchanged(`requestPending, `requestApproved, `requestRejected, `requestStarted, `requestComplete,
                        `requestFailed, `requestMalformed)
    {
      match state {
        case ReviewApproved => reviewApproved := v;
        case ReviewRejected => reviewRejected := v;
        case ReviewMalformed => reviewMalformed := v;
        case ReviewNotFound => reviewNotFound := v;
        case ReviewConflict => reviewConflict := v;
        case _ =>
      }
    }

    /** Set the gauge of every total that has one, in whatever order the map is ranged over. */
    method EmitRequestMetrics(totals: map<RequestState, nat>)
      modifies this
      ensures requestPending == if Pending in totals then totals[Pending] else old(requestPending)
      ensures requestApproved == if Approved in totals then totals[Approved] else old(requestApproved)
      ensures requestRejected == if Rejected in totals then totals[Rejected] else old(requestRejected)
      ensures requestStarted == if Started in totals then totals[Started] else old(requestStarted)
      ensures requestComplete == if Complete in totals then totals[Complete] else old(requestComplete)
      ensures requestFailed == if Failed in totals then totals[Failed] else old(requestFailed)
      ensures requestMalformed == if Malformed in totals then totals[Malformed] else old(requestMalformed)
      ensures unchanged(`reviewApproved, `reviewRejected, `reviewMalformed, `reviewNotFound, `reviewConflict)
    {
      var rest := totals.Keys;
      while rest != {}
        invariant rest <= totals.Keys
        invariant forall k | RequestGauged(k) ::
                      RequestGauge(k) == if k in totals && k !in rest then totals[k] else old(RequestGauge(k))
        invariant unchanged(`reviewApproved, `reviewRejected, `reviewMalformed, `reviewNotFound, `reviewConflict)
        decreases |rest|
      {
        var k :| k in rest;
        SetRequestGauge(k, totals[k]);
        rest := rest - {k};
      }
      assert RequestGauge(Pending) == requestPending && RequestGauge(Approved) == requestApproved;
      assert RequestGauge(Rejected) == requestRejected && RequestGauge(Started) == requestStarted;
      assert RequestGauge(Complete) == requestComplete && RequestGauge(Failed) == requestFailed;
      assert RequestGauge(Malformed) == requestMalformed;
    }

    method EmitReviewMetrics(totals: map<ReviewState, nat>)
      modifies this
      ensures reviewApproved == if ReviewApproved in totals then totals[ReviewApproved] else old(reviewApproved)
      ensures reviewRejected == if ReviewRejected in totals then totals[ReviewRejected] else old(reviewRejected)
      ensures reviewMalformed == if ReviewMalformed in totals then totals[ReviewMalformed] else old(reviewMalformed)
      ensures reviewNotFound == if ReviewNotFound in totals then totals[ReviewNotFound] else old(reviewNotFound)
      ensures reviewConflict == if ReviewConflict in totals then totals[ReviewConflict] else old(reviewConflict)
      ensures unchanged(`requestPending, `requestApproved, `requestRejected, `requestStarted, `requestComplete,
                        `requestFailed, `requestMalformed)
    {
      var rest := totals.Keys;
      while rest != {}
        invariant rest <= totals.Keys
        invariant forall k | ReviewGauged(k) ::
                      ReviewGauge(k) == if k in totals && k !in rest then totals[k] else old(ReviewGauge(k))
        invariant unchanged(`requestPending, `requestApproved, `requestRejected, `requestStarted, `requestComplete,
                            `requestFailed, `requestMalformed)
        decreases |rest|
      {
        var k :| k in rest;
        SetReviewGauge(k, totals[k]);
        rest := rest - {k};
      }
      assert ReviewGauge(ReviewApproved) == reviewApproved && ReviewGauge(ReviewRejected) == reviewRejected;
      assert ReviewGauge(ReviewMalformed) == reviewMalformed && ReviewGauge(ReviewNotFound) == reviewNotFound;
      assert ReviewGauge(ReviewConflict) == reviewConflict;
    }

    /** `requests` and `reviews` are the answers of the two list calls. If both came, every gauge
        is the number of listed items in its state, whatever it was before; else none changes. */
    method Collect(requests: Option<seq<JobRequest>>, reviews: Option<seq<Review>>)
      modifies this
      ensures requests.Some? && reviews.Some? ==>
                && requestPending == RequestsIn(requests.value, Pending)
                && requestApproved == RequestsIn(requests.value, Approved)
                && requestRejected == RequestsIn(requests.value, Rejected)
                && requestStarted == RequestsIn(requests.value, Started)
                && requestComplete == RequestsIn(requests.value, Complete)
                && requestFailed == RequestsIn(requests.value, Failed)
                && requestMalformed == RequestsIn(requests.value, Malformed)
                && reviewApproved == ReviewsIn(reviews.value, ReviewApproved)
                && reviewRejected == ReviewsIn(reviews.value, ReviewRejected)
                && reviewMalformed == ReviewsIn(reviews.value, ReviewMalformed)
                && reviewNotFound == ReviewsIn(reviews.value, ReviewNotFound)
                && reviewConflict == ReviewsIn(reviews.value, ReviewConflict)
      ensures requests.None? || reviews.None? ==> unchanged(this)
    {
      if requests.None? {
        return;
      }
      if reviews.None? {
        return;
      }
      var requestTotals := TallyResourceState(RequestStateOf, InitRequestStateMap(), requests.value);
      RequestTotals(requestTotals, requests.value);
      EmitRequestMetrics(requestTotals);
      var reviewTotals := TallyResourceState(ReviewStateOf, InitReviewStateMap(), reviews.value);
      ReviewTotals(reviewTotals, reviews.value);
      EmitReviewMetrics(reviewTotals);
    }
  }

  /* ---------- nothing is counted twice or lost ---------- */

  function UnlistedRequests(items: seq<JobRequest>): nat {
    |set i | 0 <= i < |items| && items[i].status.state.Unlisted?|
  }

  /** The seven gauges, the Conflicted, the stateless and the unlisted requests make up the list. */
  lemma {:induction false} RequestCountsSum(items: seq<JobRequest>)
    ensures RequestsIn(items, Pending) + RequestsIn(items, Approved) + RequestsIn(items, Rejected)
            + RequestsIn(items, Started) + RequestsIn(items, Complete) + RequestsIn(items, Failed)
            + RequestsIn(items, Malformed) + RequestsIn(items, Conflicted) + RequestsIn(items, Unset)
            + UnlistedRequests(items)
            == |items|
  {
    if items != [] {
      RequestCountsSum(items[..|items| - 1]);
      RequestsGrow(items, Pending);
      RequestsGrow(items, Approved);
      RequestsGrow(items, Rejected);
      RequestsGrow(items, Started);
      RequestsGrow(items, Complete);
      RequestsGrow(items, Failed);
      RequestsGrow(items, Malformed);
      RequestsGrow(items, Conflicted);
      RequestsGrow(items, Unset);
      UnlistedGrow(items);
    }
  }

  lemma UnlistedGrow(items: seq<JobRequest>)
    requires items != []
    ensures UnlistedRequests(items)
            == UnlistedRequests(items[..|items| - 1]) + if items[|items| - 1].status.state.Unlisted? then 1 else 0
  {
    var n, init := |items| - 1, items[..|items| - 1];
    var before := set i | 0 <= i < |init| && init[i].status.state.Unlisted?;
    var now := set i | 0 <= i < |items| && items[i].status.state.Unlisted?;
    OneMore(before, now, n, items[n].status.state.Unlisted?);
  }

  function UnlistedReviews(items: seq<Review>): nat {
    |set i | 0 <= i < |items| && items[i].state.ReviewUnlisted?|
  }

  /** The five gauges, the undecided and the unlisted reviews make up the list. */
  lemma {:induction false} ReviewCountsSum(items: seq<Review>)
    ensures ReviewsIn(items, ReviewApproved) + ReviewsIn(items, ReviewRejected) + ReviewsIn(items, ReviewMalformed)
            + ReviewsIn(items, ReviewNotFound) + ReviewsIn(items, ReviewConflict) + ReviewsIn(items, Undecided)
            + UnlistedReviews(items)
            == |items|
  {
    if items != [] {
      ReviewCountsSum(items[..|items| - 1]);
      ReviewsGrow(items, ReviewApproved);
      ReviewsGrow(items, ReviewRejected);
      ReviewsGrow(items, ReviewMalformed);
      ReviewsGrow(items, ReviewNotFound);
      ReviewsGrow(items, ReviewConflict);
      ReviewsGrow(items, Undecided);
      UnlistedReviewsGrow(items);
    }
  }

  lemma UnlistedReviewsGrow(items: seq<Review>)
    requires items != []
    ensures UnlistedReviews(items)
            == UnlistedReviews(items[..|items| - 1]) + if items[|items| - 1].state.ReviewUnlisted? then 1 else 0
  {
    var n, init := |items| - 1, items[..|items| - 1];
    var before := set i | 0 <= i < |init| && init[i].state.ReviewUnlisted?;
    var now := set i | 0 <= i < |items| && items[i].state.ReviewUnlisted?;
    OneMore(before, now, n, items[n].state.ReviewUnlisted?);
  }
}
