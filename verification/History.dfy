/** The atomic machine: what a log of effects must look like for each effect to be one allowed
    transition from the state stored at that moment, and what follows from that for every log. */
module History {
  import opened Api
  import opened UserIdentity
  import opened Protocol

  /* ---------- the log determines the store ---------- */

  function Init(log: seq<Event>): seq<Event>
    requires log != []
  {
    log[..|log| - 1]
  }

  function Last(log: seq<Event>): Event
    requires log != []
  {
    log[|log| - 1]
  }

  function ApplyToRequests(m: map<Key, JobRequest>, e: Event): map<Key, JobRequest> {
    match e
    case RequestCreated(k, jr) => m[k := jr]
    case RequestWritten(k, _, jr, _) => m[k := jr]
    case RequestDeleted(k, _) => m - {k}
    case _ => m
  }

  function ApplyToReviews(m: map<Key, Review>, e: Event): map<Key, Review> {
    match e
    case ReviewCreated(rk, rv) => m[rk := rv]
    case ReviewWritten(rk, _, rv) => m[rk := rv]
    case ReviewDeleted(rk, _) => m - {rk}
    case _ => m
  }

  /** The requests stored after the effects in `log`. */
  function Requests(log: seq<Event>): map<Key, JobRequest> {
    if log == [] then map[] else ApplyToRequests(Requests(Init(log)), Last(log))
  }

  /** The reviews stored after the effects in `log`. */
  function Reviews(log: seq<Event>): map<Key, Review> {
    if log == [] then map[] else ApplyToReviews(Reviews(Init(log)), Last(log))
  }

  /* ---------- transitions ---------- */

  /** The moves of the JobRequest controller. The last two need a Job that reports both
      outcomes. */
  predicate OperatorEdge(from: RequestState, to: RequestState) {
    match from
    case Unset => to == Pending || to == Malformed
    case Pending => to == Malformed
    case Approved => to == Started || to == Conflicted || to == Malformed || to == Pending
    case Rejected => to == Malformed || to == Pending
    case Started => to == Complete || to == Failed || to == Malformed || to == Pending
    case Complete => to == Failed
    case Failed => to == Complete
    case _ => false
  }

  /** A decision: a stored review of this very request, by someone else than its requester,
      moves it out of Pending and leaves its name. */
  ghost predicate DecisionEdge(log: seq<Event>, k: Key, before: JobRequest, after: RequestStatus, d: Decider) {
    && before.status.state == Pending
    && ReviewCreated(d.key, d.review) in log
    && k == Target(d.key, d.review)
    && DifferentPeople(before.requestedBy, d.review.reviewedBy)
    && after == DecidedStatus(d.key, d.review, before)
  }

  ghost predicate Transition(log: seq<Event>, k: Key, before: JobRequest, after: RequestStatus, decider: Option<Decider>) {
    match decider
    case Some(d) => DecisionEdge(log, k, before, after, d)
    case None =>
      && OperatorEdge(before.status.state, after.state)
      && after.reviewName == before.status.reviewName
      && after.jobName == if after.state == Started then k.name else before.status.jobName
  }

  predicate AboutRequest(e: Event) {
    e.RequestCreated? || e.RequestWritten? || e.RequestDeleted? || e.JobCreated?
  }

  /** The incarnation a request event is about. */
  function Uid(e: Event): nat
    requires AboutRequest(e)
  {
    if e.RequestWritten? then e.before.uid else e.request.uid
  }

  predicate AboutReview(e: Event) {
    e.ReviewCreated? || e.ReviewWritten? || e.ReviewDeleted?
  }

  function ReviewUid(e: Event): nat
    requires AboutReview(e)
  {
    if e.ReviewWritten? then e.pending.uid else e.review.uid
  }

  predicate Verdict(state: ReviewState) {
    state == ReviewApproved || state == ReviewRejected || state == ReviewMalformed || state == ReviewNotFound || state == ReviewConflict
  }

  /** Effect `e` is one atomic transition from the store that `log` leads to. */
  ghost predicate Allowed(log: seq<Event>, e: Event) {
    match e
    case RequestCreated(k, jr) =>
      && k !in Requests(log) && jr.status == BLANK_STATUS
      && forall x | x in log && AboutRequest(x) && x.key == k :: Uid(x) < jr.uid
    case RequestWritten(k, before, after, decider) =>
      && k in Requests(log) && Requests(log)[k] == before
      && after == before.(version := after.version, status := after.status) && before.version < after.version
      && Transition(log, k, before, after.status, decider)
    case RequestDeleted(k, jr) => k in Requests(log) && Requests(log)[k] == jr
    case JobCreated(k, jr) => k in Requests(log) && Requests(log)[k] == jr && jr.status.state == Approved
    case ReviewCreated(rk, rv) =>
      && rk !in Reviews(log) && rv.state == Undecided
      && forall x | x in log && AboutReview(x) && x.key == rk :: ReviewUid(x) < rv.uid
    case ReviewWritten(rk, before, after) =>
      && rk in Reviews(log) && Reviews(log)[rk] == before
      && after == before.(version := after.version, state := after.state) && before.version < after.version
      && before.state == Undecided && Verdict(after.state)
    case ReviewDeleted(rk, rv) => rk in Reviews(log) && Reviews(log)[rk] == rv
  }

  /** Every effect was an allowed atomic transition. */
  ghost predicate Atomic(log: seq<Event>) {
    log != [] ==> Atomic(Init(log)) && Allowed(Init(log), Last(log))
  }

  lemma Appended(log: seq<Event>, e: Event)
    ensures Init(log + [e]) == log && Last(log + [e]) == e
    ensures Requests(log + [e]) == ApplyToRequests(Requests(log), e)
    ensures Reviews(log + [e]) == ApplyToReviews(Reviews(log), e)
    ensures Atomic(log) && Allowed(log, e) ==> Atomic(log + [e])
  {
    assert (log + [e])[..|log|] == log;
  }

  /** Every effect in an atomic log was allowed where it stands. */
  lemma {:induction false} AllowedAt(log: seq<Event>, i: nat)
    requires Atomic(log) && i < |log|
    ensures Atomic(log[..i]) && Allowed(log[..i], log[i])
    decreases |log|
  {
    if i < |log| - 1 {
      AllowedAt(Init(log), i);
      assert Init(log)[..i] == log[..i];
    }
  }
}
