/** What pruning and the fallback to Pending cannot undo, stated for one request whatever happens to
    the others. As long as listing the reviews of a rejected request works, those that reject it are
    no older than it and not already deleted when they do so, and the cache does not go back to a form
    older than one of them, the fallback happens only once the request itself is due for deletion; so
    a rejected incarnation never gets a Job. The same about approvals, and an operator that does not
    lose track of its Job, and none gets two. */
module Pruning {
  import opened Api
  import opened Protocol
  import opened History
  import opened Invariant
  import opened Forms
  import opened Decisions

  /* ---------- the assumptions ---------- */

  /** Decided so, and not undone since. */
  predicate DecidedAs(jr: JobRequest, decision: Decision) {
    match decision
    case Approve => jr.HasBeenApproved()
    case Reject => jr.HasBeenRejected()
  }

  /** The state a decision leads to that must not be left for Pending: that of an approved request is
      Started, since before it there is no Job. */
  predicate Kept(state: RequestState, decision: Decision) {
    match decision
    case Approve => state == Started
    case Reject => state == Rejected
  }

  /** Such a decision on request `k`. */
  predicate DecidesOn(e: Event, k: Key, decision: Decision) {
    e.RequestWritten? && e.key == k && e.decider.Some? && e.decider.value.review.decision == decision
  }

  /** This incarnation of the review is stored, or is past its lifetime. */
  predicate StillThere(st: Store, rk: Key, rv: Review) {
    (rk in st.reviews && st.reviews[rk].uid == rv.uid) || Expired(st, rv.created)
  }

  /** Such a decision on `k` that is applied is by a review no older than the request and not deleted
      early. */
  predicate CalmReview(st: Store, rk: Key, task: ReviewTask, outcome: Outcome, k: Key, decision: Decision) {
    Accepted(st, rk, task, outcome) && Target(rk, task.rv) == k && task.rv.decision == decision ==>
      task.jr.created <= task.rv.created && StillThere(st, rk, task.rv)
  }

  /** Of the reviews that so decided on `k` none is newer than the form served under its name. */
  predicate NotBehind(log: seq<Event>, rk: Key, v: Review, k: Key, decision: Decision) {
    forall e | e in log && DecidesOn(e, k, decision) && e.decider.value.key == rk :: e.decider.value.review.version <= v.version
  }

  /** The step meets the assumptions on lists, deciders and the cache, as far as such decisions on `k`
      are concerned. */
  predicate Calm(s: System, a: Action, k: Key, decision: Decision) {
    match a
    case StepRequest(x, outcome) =>
      x == k && k in s.requestTasks && s.requestTasks[k].FindingReviews? && Kept(s.requestTasks[k].jr.status.state, decision)
      ==> outcome == Ok
    case StepReview(rk, outcome) => rk in s.reviewTasks ==> CalmReview(s.store, rk, s.reviewTasks[rk], outcome, k, decision)
    case StartReview(rk, Some(v)) => NotBehind(s.log, rk, v, k, decision)
    case _ => true
  }

  /** The Job is created and the update that says so is about to be sent from the stored version. */
  predicate Posting(s: System, k: Key) {
    && k in s.store.requests && s.store.requests[k].status.state == Approved
    && k in s.requestTasks && s.requestTasks[k].Writing?
    && s.requestTasks[k].jr == s.store.requests[k] && s.requestTasks[k].rest == []
    && (s.requestTasks[k].status.state == Started || s.requestTasks[k].status.state == Malformed)
  }

  predicate MakesJob(e: Event, k: Key, uid: nat) {
    e.JobCreated? && e.key == k && e.request.uid == uid
  }

  predicate EverMade(log: seq<Event>, k: Key, uid: nat) {
    exists e | e in log :: MakesJob(e, k, uid)
  }

  /** A Job of the incarnation is there, or was, and the request is about to be told. */
  predicate Untold(s: System, k: Key) {
    Posting(s, k) && EverMade(s.log, k, s.store.requests[k].uid)
  }

  /** In addition, that update does not fail, nor is the reconcile stopped before it: no other step
      makes the operator lose track of a Job. */
  predicate Reliable(s: System, a: Action, k: Key) {
    Untold(s, k) ==> a != StepRequest(k, Fails) && a != StopRequest(k)
  }

  predicate CalmRun(s: System, actions: seq<Action>, k: Key, decision: Decision) {
    actions != [] ==>
      && CalmRun(s, actions[..|actions| - 1], k, decision)
      && Calm(Run(s, actions[..|actions| - 1]), actions[|actions| - 1], k, decision)
  }

  predicate ReliableRun(s: System, actions: seq<Action>, k: Key) {
    actions != [] ==>
      && ReliableRun(s, actions[..|actions| - 1], k)
      && Reliable(Run(s, actions[..|actions| - 1]), actions[|actions| - 1], k)
  }

  /* ---------- an empty list means the request is due ---------- */

  /** The decider was no older than the request, is still there, and the cache is not behind it. */
  predicate Stands(st: Store, tasks: map<Key, ReviewTask>, before: JobRequest, d: Decider) {
    && before.created <= d.review.created
    && d.review in SeenOf(st.seen, d.key)
    && StillThere(st, d.key, d.review)
    && (d.key in tasks ==> d.review.version <= tasks[d.key].rv.version)
  }

  predicate DecidersStand(s: System, k: Key, decision: Decision) {
    forall e | e in s.log && DecidesOn(e, k, decision) :: Stands(s.store, s.reviewTasks, e.before, e.decider.value)
  }

  /** A review is about to be deleted only when the form in hand is past its lifetime. */
  predicate PrunesDue(s: System) {
    forall rk | rk in s.reviewTasks && s.reviewTasks[rk].DeletingReview? :: Expired(s.store, s.reviewTasks[rk].rv.created)
  }

  /** A request so decided is about to be sent back to Pending only when past its lifetime. */
  predicate DueTask(st: Store, task: RequestTask, decision: Decision) {
    task.Writing? && task.status.state == Pending && Kept(task.jr.status.state, decision) ==> Expired(st, task.jr.created)
  }

  predicate Timely(s: System, k: Key, decision: Decision) {
    && Ordered(s.store) && PrunesDue(s) && DecidersStand(s, k, decision)
    && (k in s.requestTasks ==> DueTask(s.store, s.requestTasks[k], decision))
  }

  /** While the incarnation of a seen review is stored, its target lists it. */
  lemma SeenIsListed(st: Store, log: seq<Event>, rk: Key, rv: Review)
    requires ReviewLedger(st.reviews, st.reviewRev, st.seen, log) && rv in SeenOf(st.seen, rk)
    ensures rk in st.reviews && st.reviews[rk].uid == rv.uid ==> rk in ReviewsOf(st, Target(rk, rv))
  {
    if rk in st.reviews && st.reviews[rk].uid == rv.uid {
      SameCreation(st, log, rk, rv);
    }
  }

  lemma UnlistedIsExpired(st: Store, log: seq<Event>, rk: Key, rv: Review)
    requires StillThere(st, rk, rv) && ReviewLedger(st.reviews, st.reviewRev, st.seen, log) && rv in SeenOf(st.seen, rk)
    requires ReviewsOf(st, Target(rk, rv)) == {}
    ensures Expired(st, rv.created)
  {
    SeenIsListed(st, log, rk, rv);
    assert rk !in ReviewsOf(st, Target(rk, rv));
  }

  /** The review that last decided on a request so decided, and the request as it was then. */
  lemma LastDecider(log: seq<Event>, k: Key, decision: Decision) returns (e: Event)
    requires Atomic(log) && k in Requests(log) && DecidedAs(Requests(log)[k], decision)
    ensures e in log && DecidesOn(e, k, decision) && SameRequest(Requests(log)[k], e.before)
    ensures Target(e.decider.value.key, e.decider.value.review) == k
  {
    StatusTellsHistory(log, k);
    var j := LastDecisionIsEvent(log, k, Requests(log)[k].uid);
    e := log[j];
    SameIncarnation(log, j, |log|);
    assert log[..|log|] == log;
  }

  /** A request so decided without a listed review is past its lifetime. */
  lemma EmptyListMeansExpired(s: System, k: Key, decision: Decision)
    requires Inv(s) && Timely(s, k, decision) && k in s.store.requests && DecidedAs(s.store.requests[k], decision)
    requires ReviewsOf(s.store, k) == {}
    ensures Expired(s.store, s.store.requests[k].created)
  {
    var e := LastDecider(s.log, k, decision);
    assert Stands(s.store, s.reviewTasks, e.before, e.decider.value);
    UnlistedIsExpired(s.store, s.log, e.decider.value.key, e.decider.value.review);
  }

  /* ---------- calm steps stay timely ---------- */

  /** What the next call of a JobRequest reconcile adds to the log: nothing, or one event about its
      request that decides nothing. */
  predicate OperatorEvent(e: Event, k: Key) {
    e.key == k && AboutRequest(e) && (e.RequestWritten? ==> e.decider.None? && e.after.status.state != Rejected)
  }

  lemma RequestEffectLog(s: System, k: Key, task: RequestTask, outcome: Outcome)
    requires Recorded(s) && Holds(Stored(s.store.requests, k), k, task)
    ensures var s' := RequestEffect(s, k, task, outcome);
            || s'.log == s.log
            || (s'.log != [] && s'.log == s.log + [Last(s'.log)] && OperatorEvent(Last(s'.log), k)
                && (Last(s'.log).JobCreated? ==> task.CreatingJob? && Stored(s.store.requests, k) == Some(Last(s'.log).request)))
  {
    if task.Writing? && Fresh(s.store, k, task.jr) {
      UpdateIsTransition(s, k, task.jr, task.status, task.rest);
    }
  }

  lemma RequestStepStands(s: System, x: Key, outcome: Outcome, k: Key, decision: Decision)
    requires Inv(s) && DecidersStand(s, k, decision) && x in s.requestTasks
    ensures DecidersStand(AdvanceRequest(s, x, s.requestTasks[x], outcome), k, decision)
  {
    var task := s.requestTasks[x];
    assert Holds(Stored(s.store.requests, x), x, task);
    RequestEffectLog(s, x, task, outcome);
    RequestEffectTime(s, x, task, outcome);
    RequestEffectLocal(s, x, task, outcome);
  }

  /** A decider stands while the clock goes on, if its review and what is in flight under its name
      allow it. */
  lemma StandsOn(st: Store, tasks: map<Key, ReviewTask>, st': Store, tasks': map<Key, ReviewTask>, before: JobRequest, d: Decider)
    requires Stands(st, tasks, before, d)
    requires st.clock <= st'.clock && st'.ttl == st.ttl && SeenOf(st.seen, d.key) <= SeenOf(st'.seen, d.key)
    requires d.key in st.reviews && st.reviews[d.key].uid == d.review.uid ==> StillThere(st', d.key, d.review)
    requires d.key in tasks' ==> d.review.version <= tasks'[d.key].rv.version
    ensures Stands(st', tasks', before, d)
  {
  }

  /** The delete of a reconcile that is not behind a decider leaves it standing. */
  lemma PruneSpares(s: System, rk: Key, rv: Review, d: Decider)
    requires Recorded(s) && Ordered(s.store) && rv in SeenOf(s.store.seen, rk) && Expired(s.store, rv.created)
    requires d.key == rk && d.review in SeenOf(s.store.seen, rk) && d.review.version <= rv.version
    requires StillThere(s.store, rk, d.review)
    ensures Expired(s.store, d.review.created)
  {
    if rk in s.store.reviews && s.store.reviews[rk].uid == d.review.uid {
      SeenIsDrawn(s.store, s.log, rk, d.review);
      LaterIsStored(s.store, s.log, rk, rv);
      SameCreation(s.store, s.log, rk, d.review);
    }
  }

  /** Under the decider's own name: no delete of its reconcile hits it early, and the reconcile holds
      what it held. */
  lemma OwnDeciderStays(s: System, rk: Key, task: ReviewTask, outcome: Outcome, d: Decider)
    requires Recorded(s) && Ordered(s.store) && HoldsReview(s.store, rk, task)
    requires task.DeletingReview? ==> Expired(s.store, task.rv.created)
    requires d.key == rk && d.review in SeenOf(s.store.seen, rk) && d.review.version <= task.rv.version
    requires StillThere(s.store, rk, d.review)
    ensures StillThere(ReviewEffect(s, rk, task, outcome).store, rk, d.review)
  {
    ReviewEffectTime(s, rk, task, outcome);
    ReviewEffectOwn(s, rk, task, outcome);
    if task.DeletingReview? {
      PruneSpares(s, rk, task.rv, d);
    }
  }

  lemma OtherDeciderStays(s: System, rk: Key, task: ReviewTask, outcome: Outcome, d: Decider)
    requires d.key != rk && StillThere(s.store, d.key, d.review)
    ensures StillThere(ReviewEffect(s, rk, task, outcome).store, d.key, d.review)
  {
    ReviewEffectTime(s, rk, task, outcome);
    ReviewEffectOwn(s, rk, task, outcome);
    assert Stored(ReviewEffect(s, rk, task, outcome).store.reviews, d.key) == Stored(s.store.reviews, d.key);
  }

  /** The cache stays no further behind a decider. */
  lemma HeldStaysOn(s: System, rk: Key, outcome: Outcome, d: Decider)
    requires rk in s.reviewTasks && (d.key in s.reviewTasks ==> d.review.version <= s.reviewTasks[d.key].rv.version)
    ensures var tasks := Step(s, StepReview(rk, outcome)).reviewTasks; d.key in tasks ==> d.review.version <= tasks[d.key].rv.version
  {
    ReviewCallIs(s, rk, outcome);
    ReviewNextSameReview(s.store, rk, s.reviewTasks[rk], outcome);
    assert d.key != rk ==> Stored(Step(s, StepReview(rk, outcome)).reviewTasks, d.key) == Stored(s.reviewTasks, d.key);
  }

  lemma DeciderStaysOn(s: System, rk: Key, outcome: Outcome, before: JobRequest, d: Decider)
    requires Inv(s) && Ordered(s.store) && PrunesDue(s) && rk in s.reviewTasks
    requires Stands(s.store, s.reviewTasks, before, d)
    ensures var s' := Step(s, StepReview(rk, outcome)); Stands(s'.store, s'.reviewTasks, before, d)
  {
    var task := s.reviewTasks[rk];
    assert HoldsReview(s.store, rk, task);
    ReviewCallIs(s, rk, outcome);
    HeldStaysOn(s, rk, outcome, d);
    ReviewEffectOwn(s, rk, task, outcome);
    if d.key == rk {
      OwnDeciderStays(s, rk, task, outcome, d);
    } else {
      OtherDeciderStays(s, rk, task, outcome, d);
    }
  }

  /** What the next call of a review reconcile adds to the log: an event about a review, or the
      decision it commits. */
  lemma ReviewEffectLog(s: System, rk: Key, task: ReviewTask, outcome: Outcome)
    requires Recorded(s) && HoldsReview(s.store, rk, task)
    ensures var s' := ReviewEffect(s, rk, task, outcome);
            if Accepted(s.store, rk, task, outcome) then
              var k := Target(rk, task.rv);
              && s' == PutStatus(s, k, DecidedStatus(rk, task.rv, task.jr), Some(Decider(rk, task.rv)))
              && Stored(s.store.requests, k) == Some(task.jr) && task.jr.status.state == Pending
              && s'.log != [] && s'.log == s.log + [Last(s'.log)]
              && k in s'.store.requests && s'.store.requests == s.store.requests[k := s'.store.requests[k]]
              && Last(s'.log) == RequestWritten(k, task.jr, s'.store.requests[k], Some(Decider(rk, task.rv)))
              && SameRequest(s'.store.requests[k], task.jr)
              && s'.store.requests[k].status == DecidedStatus(rk, task.rv, task.jr)
            else
              s'.store.requests == s.store.requests
              && (s'.log == s.log || (s'.log != [] && s'.log == s.log + [Last(s'.log)] && AboutReview(Last(s'.log)) && Last(s'.log).key == rk))
  {
    if task.Committing? && Fresh(s.store, Target(rk, task.rv), task.jr) {
      DecisionIsTransition(s, rk, task.rv, task.jr);
    }
  }

  /** A decider just committed stands. */
  lemma NewDeciderStands(s: System, rk: Key, outcome: Outcome, k: Key, decision: Decision)
    requires Inv(s) && rk in s.reviewTasks && Accepted(s.store, rk, s.reviewTasks[rk], outcome)
    requires Target(rk, s.reviewTasks[rk].rv) == k && s.reviewTasks[rk].rv.decision == decision
    requires CalmReview(s.store, rk, s.reviewTasks[rk], outcome, k, decision)
    ensures var task, s' := s.reviewTasks[rk], Step(s, StepReview(rk, outcome));
            Stands(s'.store, s'.reviewTasks, task.jr, Decider(rk, task.rv))
  {
    var task := s.reviewTasks[rk];
    assert HoldsReview(s.store, rk, task);
    ReviewCallIs(s, rk, outcome);
    ReviewEffectTime(s, rk, task, outcome);
    ReviewEffectOwn(s, rk, task, outcome);
  }

  /** A decision that the call adds to the log is the one it sends. */
  lemma NewDecisionIs(s: System, rk: Key, outcome: Outcome, e: Event, k: Key, decision: Decision)
    requires Inv(s) && rk in s.reviewTasks && DecidesOn(e, k, decision) && e !in s.log
    requires e in ReviewEffect(s, rk, s.reviewTasks[rk], outcome).log
    ensures Accepted(s.store, rk, s.reviewTasks[rk], outcome) && Target(rk, s.reviewTasks[rk].rv) == k
    ensures s.reviewTasks[rk].rv.decision == decision
    ensures e.before == s.reviewTasks[rk].jr && e.decider == Some(Decider(rk, s.reviewTasks[rk].rv))
  {
    assert HoldsReview(s.store, rk, s.reviewTasks[rk]);
    ReviewEffectLog(s, rk, s.reviewTasks[rk], outcome);
  }

  lemma ReviewStepStands(s: System, rk: Key, outcome: Outcome, k: Key, decision: Decision)
    requires Inv(s) && Ordered(s.store) && PrunesDue(s) && DecidersStand(s, k, decision)
    requires rk in s.reviewTasks && CalmReview(s.store, rk, s.reviewTasks[rk], outcome, k, decision)
    ensures DecidersStand(Step(s, StepReview(rk, outcome)), k, decision)
  {
    var s' := Step(s, StepReview(rk, outcome));
    ReviewCallIs(s, rk, outcome);
    forall e | e in s'.log && DecidesOn(e, k, decision) ensures Stands(s'.store, s'.reviewTasks, e.before, e.decider.value) {
      if e in s.log {
        DeciderStaysOn(s, rk, outcome, e.before, e.decider.value);
      } else {
        NewDecisionIs(s, rk, outcome, e, k, decision);
        NewDeciderStands(s, rk, outcome, k, decision);
      }
    }
  }

  lemma StartReviewStands(s: System, rk: Key, cached: Option<Review>, k: Key, decision: Decision)
    requires DecidersStand(s, k, decision) && (cached.Some? ==> NotBehind(s.log, rk, cached.value, k, decision))
    ensures DecidersStand(BeginReview(s, rk, cached), k, decision)
  {
  }

  lemma CreateReviewStands(s: System, rk: Key, reviewedBy: Option<string>, requestName: string, carried: Decision,
                           k: Key, decision: Decision)
    requires DecidersStand(s, k, decision)
    ensures DecidersStand(AddReview(s, rk, reviewedBy, requestName, carried), k, decision)
  {
    var s' := AddReview(s, rk, reviewedBy, requestName, carried);
    forall e | e in s'.log && DecidesOn(e, k, decision) ensures Stands(s'.store, s'.reviewTasks, e.before, e.decider.value) {
      StandsOn(s.store, s.reviewTasks, s'.store, s'.reviewTasks, e.before, e.decider.value);
    }
  }

  lemma OtherStepStands(s: System, a: Action, k: Key, decision: Decision)
    requires DecidersStand(s, k, decision)
    requires !a.StepRequest? && !a.StepReview? && !a.StartReview? && !a.CreateReview?
    ensures DecidersStand(Step(s, a), k, decision)
  {
    var s' := Step(s, a);
    StepTime(s, a);
    forall e | e in s'.log && DecidesOn(e, k, decision) ensures Stands(s'.store, s'.reviewTasks, e.before, e.decider.value) {
      assert e in s.log;
      StandsOn(s.store, s.reviewTasks, s'.store, s'.reviewTasks, e.before, e.decider.value);
    }
  }

  lemma StepStands(s: System, a: Action, k: Key, decision: Decision)
    requires Inv(s) && Timely(s, k, decision) && Calm(s, a, k, decision)
    ensures DecidersStand(Step(s, a), k, decision)
  {
    if a.StepRequest? {
      if a.key in s.requestTasks {
        RequestStepStands(s, a.key, a.outcome, k, decision);
      }
    } else if a.StepReview? {
      if a.key in s.reviewTasks {
        ReviewStepStands(s, a.key, a.outcome, k, decision);
      }
    } else if a.StartReview? {
      if a.key !in s.reviewTasks {
        StartReviewStands(s, a.key, a.cached, k, decision);
      }
    } else if a.CreateReview? {
      CreateReviewStands(s, a.key, a.reviewedBy, a.requestName, a.decision, k, decision);
    } else {
      OtherStepStands(s, a, k, decision);
    }
  }

  lemma ReviewStepPrunesDue(s: System, rk: Key, outcome: Outcome)
    requires PrunesDue(s) && rk in s.reviewTasks
    ensures PrunesDue(AdvanceReview(s, rk, s.reviewTasks[rk], outcome))
  {
    ReviewEffectTime(s, rk, s.reviewTasks[rk], outcome);
    ReviewEffectLocal(s, rk, s.reviewTasks[rk], outcome);
  }

  lemma RequestStepPrunesDue(s: System, k: Key, outcome: Outcome)
    requires PrunesDue(s) && k in s.requestTasks
    ensures PrunesDue(AdvanceRequest(s, k, s.requestTasks[k], outcome))
  {
    RequestEffectTime(s, k, s.requestTasks[k], outcome);
    RequestEffectLocal(s, k, s.requestTasks[k], outcome);
  }

  lemma StepPrunesDue(s: System, a: Action)
    requires PrunesDue(s)
    ensures PrunesDue(Step(s, a))
  {
    if a.StepRequest? && a.key in s.requestTasks {
      RequestStepPrunesDue(s, a.key, a.outcome);
    } else if a.StepReview? && a.key in s.reviewTasks {
      ReviewStepPrunesDue(s, a.key, a.outcome);
    } else if !a.StepRequest? && !a.StepReview? {
      OtherStepPrunesDue(s, a);
    }
  }

  lemma OtherStepPrunesDue(s: System, a: Action)
    requires PrunesDue(s) && !a.StepRequest? && !a.StepReview?
    ensures PrunesDue(Step(s, a))
  {
  }

  /** No call but the listing of reviews leads to a return to Pending. */
  lemma OnlyListingReturns(s: System, k: Key, task: RequestTask, outcome: Outcome)
    requires !task.FindingReviews?
    requires task.Writing? ==> Finals(task.rest)
    ensures var next := RequestNext(s, k, task, outcome); next.Some? && next.value.Writing? ==> next.value.status.state != Pending
  {
    if task.Rereading? {
      FinalStatesAreFinal(task.conditions);
    }
  }

  /** The call that sends it back to Pending finds the request due. */
  lemma NextIsDue(s: System, k: Key, task: RequestTask, outcome: Outcome, decision: Decision)
    requires Holds(Stored(s.store.requests, k), k, task)
    requires task.FindingReviews? && Kept(task.jr.status.state, decision) ==>
               outcome == Ok && (ReviewsOf(s.store, k) == {} ==> Expired(s.store, task.jr.created))
    ensures var next := RequestNext(s, k, task, outcome); next.Some? ==> DueTask(s.store, next.value, decision)
  {
    if !task.FindingReviews? {
      OnlyListingReturns(s, k, task, outcome);
    }
  }

  lemma ListingIsDue(s: System, k: Key, jr: JobRequest, decision: Decision)
    requires Inv(s) && Timely(s, k, decision) && CurrentOrOvertaken(Stored(s.store.requests, k), jr) && !Terminal(jr.status.state)
    requires ReviewsOf(s.store, k) == {} && Kept(jr.status.state, decision)
    ensures Expired(s.store, jr.created)
  {
    EmptyListMeansExpired(s, k, decision);
  }

  lemma OwnStepDueTask(s: System, k: Key, outcome: Outcome, decision: Decision)
    requires Inv(s) && Timely(s, k, decision) && k in s.requestTasks && Calm(s, StepRequest(k, outcome), k, decision)
    ensures var s' := AdvanceRequest(s, k, s.requestTasks[k], outcome);
            k in s'.requestTasks ==> DueTask(s'.store, s'.requestTasks[k], decision)
  {
    var task := s.requestTasks[k];
    assert Holds(Stored(s.store.requests, k), k, task);
    if task.FindingReviews? && Kept(task.jr.status.state, decision) && ReviewsOf(s.store, k) == {} {
      ListingIsDue(s, k, task.jr, decision);
    }
    NextIsDue(s, k, task, outcome, decision);
    RequestEffectTime(s, k, task, outcome);
    RequestEffectLocal(s, k, task, outcome);
  }

  /** No step but its own changes what the reconcile of `k` holds, except that it may begin or be
      stopped. */
  lemma OthersKeepTaskOf(s: System, a: Action, k: Key)
    requires !(a.StepRequest? && a.key == k)
    ensures var s' := Step(s, a);
            k in s'.requestTasks ==> Stored(s.requestTasks, k) == Some(s'.requestTasks[k]) || s'.requestTasks[k].Fetched?
  {
    if a.StepRequest? && a.key in s.requestTasks {
      RequestEffectLocal(s, a.key, s.requestTasks[a.key], a.outcome);
    } else if a.StepReview? && a.key in s.reviewTasks {
      ReviewEffectLocal(s, a.key, s.reviewTasks[a.key], a.outcome);
    }
  }

  lemma StepDueTask(s: System, a: Action, k: Key, decision: Decision)
    requires Inv(s) && Timely(s, k, decision) && Calm(s, a, k, decision)
    ensures var s' := Step(s, a); k in s'.requestTasks ==> DueTask(s'.store, s'.requestTasks[k], decision)
  {
    if a.StepRequest? && a.key == k {
      if k in s.requestTasks {
        OwnStepDueTask(s, k, a.outcome, decision);
      }
    } else {
      OthersKeepTaskOf(s, a, k);
      StepTime(s, a);
    }
  }

  lemma StepKeepsTimely(s: System, a: Action, k: Key, decision: Decision)
    requires Inv(s) && Timely(s, k, decision) && Calm(s, a, k, decision)
    ensures Timely(Step(s, a), k, decision)
  {
    StepKeepsOrdered(s, a);
    StepPrunesDue(s, a);
    StepStands(s, a, k, decision);
    StepDueTask(s, a, k, decision);
  }

  lemma {:induction false} CalmRunKeepsTimely(s: System, actions: seq<Action>, k: Key, decision: Decision)
    requires Initial(s) && CalmRun(s, actions, k, decision)
    ensures Inv(Run(s, actions)) && Timely(Run(s, actions), k, decision)
    decreases |actions|
  {
    InitialInv(s);
    if actions != [] {
      var prefix, a := actions[..|actions| - 1], actions[|actions| - 1];
      CalmRunKeepsTimely(s, prefix, k, decision);
      StepKeepsInv(Run(s, prefix), a);
      StepKeepsTimely(Run(s, prefix), a, k, decision);
    }
  }

  /** In a calm run no review that so decided on `k` is ever deleted before its time. */
  lemma DecidersNeverPrunedEarly(s: System, actions: seq<Action>, k: Key, decision: Decision, e: Event)
    requires Initial(s) && CalmRun(s, actions, k, decision)
    requires e in Run(s, actions).log && DecidesOn(e, k, decision)
    ensures StillThere(Run(s, actions).store, e.decider.value.key, e.decider.value.review)
  {
    CalmRunKeepsTimely(s, actions, k, decision);
    assert Stands(Run(s, actions).store, Run(s, actions).reviewTasks, e.before, e.decider.value);
  }

  /* ---------- the standing of a request ---------- */

  predicate Harmless(task: RequestTask) {
    task.Fetched? || task.Deleting?
  }

  /** The request is due, and its reconcile, if any, will find that out. */
  predicate Due(s: System, k: Key) {
    && k in s.store.requests && Expired(s.store, s.store.requests[k].created)
    && (k in s.requestTasks ==> Harmless(s.requestTasks[k]))
  }

  /** The event is about request `k`. */
  predicate About(e: Event, k: Key) {
    AboutRequest(e) && e.key == k
  }

  /** From `s` to `s'` request `k`, its reconcile and its history are left alone, but that a
      reconcile may begin or be stopped. */
  predicate LeavesAlone(s: System, s': System, k: Key) {
    && Stored(s'.store.requests, k) == Stored(s.store.requests, k)
    && (k in s'.requestTasks ==> Stored(s.requestTasks, k) == Some(s'.requestTasks[k]) || s'.requestTasks[k].Fetched?)
    && s.store.clock <= s'.store.clock && s'.store.ttl == s.store.ttl
    && (s'.log == s.log || (s'.log != [] && s'.log == s.log + [Last(s'.log)] && !About(Last(s'.log), k)))
  }

  /** The steps that do not leave `k` alone: those of its own reconcile, its creation, and a decision
      on it. */
  predicate Touches(s: System, a: Action, k: Key) {
    || (a.StepRequest? && a.key == k)
    || (a.CreateRequest? && a.key == k && k !in s.store.requests)
    || (a.StepReview? && a.key in s.reviewTasks && Target(a.key, s.reviewTasks[a.key].rv) == k
        && Accepted(s.store, a.key, s.reviewTasks[a.key], a.outcome))
  }

  lemma OtherRequestLeavesAlone(s: System, x: Key, outcome: Outcome, k: Key)
    requires Inv(s) && x in s.requestTasks && x != k
    ensures LeavesAlone(s, AdvanceRequest(s, x, s.requestTasks[x], outcome), k)
  {
    assert Holds(Stored(s.store.requests, x), x, s.requestTasks[x]);
    RequestEffectLog(s, x, s.requestTasks[x], outcome);
    RequestEffectLocal(s, x, s.requestTasks[x], outcome);
    RequestEffectTime(s, x, s.requestTasks[x], outcome);
  }

  lemma OtherReviewLeavesAlone(s: System, rk: Key, outcome: Outcome, k: Key)
    requires Inv(s) && rk in s.reviewTasks && !Touches(s, StepReview(rk, outcome), k)
    ensures LeavesAlone(s, AdvanceReview(s, rk, s.reviewTasks[rk], outcome), k)
  {
    assert HoldsReview(s.store, rk, s.reviewTasks[rk]);
    ReviewEffectLog(s, rk, s.reviewTasks[rk], outcome);
    ReviewEffectLocal(s, rk, s.reviewTasks[rk], outcome);
    ReviewEffectTime(s, rk, s.reviewTasks[rk], outcome);
  }

  lemma WorldLeavesAlone(s: System, a: Action, k: Key)
    requires !Touches(s, a, k) && !a.StepRequest? && !a.StepReview?
    ensures LeavesAlone(s, Step(s, a), k)
  {
  }

  lemma OthersLeaveAlone(s: System, a: Action, k: Key)
    requires Inv(s) && !Touches(s, a, k)
    ensures LeavesAlone(s, Step(s, a), k)
  {
    if a.StepRequest? {
      if a.key in s.requestTasks {
        OtherRequestLeavesAlone(s, a.key, a.outcome, k);
      }
    } else if a.StepReview? {
      if a.key in s.reviewTasks {
        OtherReviewLeavesAlone(s, a.key, a.outcome, k);
      }
    } else {
      WorldLeavesAlone(s, a, k);
    }
  }

  lemma DueLeftAlone(s: System, s': System, k: Key)
    requires LeavesAlone(s, s', k) && Due(s, k)
    ensures Due(s', k)
  {
  }

  /** What a decision on a Pending request does to the system, as far as that request goes. */
  predicate DecidedNow(s: System, s': System, k: Key) {
    && k in s.store.requests && s.store.requests[k].status.state == Pending
    && k in s'.store.requests && SameRequest(s'.store.requests[k], s.store.requests[k])
    && (s'.store.requests[k].status.state == Approved || s'.store.requests[k].status.state == Rejected)
    && Stored(s'.requestTasks, k) == Stored(s.requestTasks, k)
    && s'.store.clock == s.store.clock && s'.store.ttl == s.store.ttl
    && s'.log != [] && s'.log == s.log + [Last(s'.log)]
    && Last(s'.log).RequestWritten? && Last(s'.log).key == k
    && Last(s'.log).before == s.store.requests[k] && Last(s'.log).after == s'.store.requests[k]
  }

  lemma CommitDecides(s: System, rk: Key, outcome: Outcome)
    requires Inv(s) && rk in s.reviewTasks && Accepted(s.store, rk, s.reviewTasks[rk], outcome)
    ensures DecidedNow(s, AdvanceReview(s, rk, s.reviewTasks[rk], outcome), Target(rk, s.reviewTasks[rk].rv))
  {
    var task := s.reviewTasks[rk];
    assert HoldsReview(s.store, rk, task);
    ReviewEffectLog(s, rk, task, outcome);
    ReviewEffectLocal(s, rk, task, outcome);
    ReviewEffectTime(s, rk, task, outcome);
  }

  /** A due request stays due under the calls of its own reconcile, or is deleted. */
  lemma OwnStepStaysDue(s: System, k: Key, outcome: Outcome)
    requires Due(s, k) && k in s.requestTasks && Holds(Stored(s.store.requests, k), k, s.requestTasks[k])
    ensures var s' := AdvanceRequest(s, k, s.requestTasks[k], outcome);
            k in s'.store.requests ==> s'.store.requests[k] == s.store.requests[k] && Due(s', k)
  {
  }

  /** A due request stays due whatever step is taken, or is deleted. */
  lemma DueStaysDue(s: System, a: Action, k: Key)
    requires Inv(s) && Due(s, k)
    ensures var s' := Step(s, a);
            k in s'.store.requests ==> SameRequest(s'.store.requests[k], s.store.requests[k]) && Due(s', k)
  {
    if a.StepRequest? && a.key == k {
      if k in s.requestTasks {
        assert Holds(Stored(s.store.requests, k), k, s.requestTasks[k]);
        OwnStepStaysDue(s, k, a.outcome);
      }
    } else if Touches(s, a, k) {
      CommitDecides(s, a.key, a.outcome);
    } else {
      OthersLeaveAlone(s, a, k);
      DueLeftAlone(s, Step(s, a), k);
    }
  }

  /* ---------- once rejected ---------- */

  predicate Rejects(e: Event, k: Key, uid: nat) {
    e.RequestWritten? && e.key == k && e.before.uid == uid && e.after.status.state == Rejected
  }

  predicate EverRejected(log: seq<Event>, k: Key, uid: nat) {
    exists e | e in log :: Rejects(e, k, uid)
  }

  predicate Shut(jr: JobRequest) {
    jr.status.state == Rejected || jr.status.state == Malformed
  }

  /** If this incarnation was ever rejected it is still Rejected, or Malformed, or due. */
  predicate RejectedSafe(s: System, k: Key) {
    k in s.store.requests && EverRejected(s.log, k, s.store.requests[k].uid) ==> Shut(s.store.requests[k]) || Due(s, k)
  }

  /** No Job is created for an incarnation of `k` rejected before. */
  predicate NoLateJobs(log: seq<Event>, k: Key) {
    log != [] ==>
      && NoLateJobs(Init(log), k)
      && (Last(log).JobCreated? && Last(log).key == k ==> !EverRejected(Init(log), k, Last(log).request.uid))
  }

  lemma LeftAloneKeepsRejected(s: System, s': System, k: Key)
    requires RejectedSafe(s, k) && NoLateJobs(s.log, k) && LeavesAlone(s, s', k)
    ensures RejectedSafe(s', k) && NoLateJobs(s'.log, k)
  {
    if s'.log != s.log {
      Appended(s.log, Last(s'.log));
    }
    if k in s'.store.requests && EverRejected(s'.log, k, s'.store.requests[k].uid) {
      assert EverRejected(s.log, k, s.store.requests[k].uid);
    }
  }

  /** A decision on a Pending request leaves it due, or is its first rejection. */
  lemma DecisionKeepsRejected(s: System, s': System, k: Key)
    requires RejectedSafe(s, k) && NoLateJobs(s.log, k) && DecidedNow(s, s', k)
    ensures RejectedSafe(s', k) && NoLateJobs(s'.log, k)
  {
    Appended(s.log, Last(s'.log));
    if EverRejected(s'.log, k, s'.store.requests[k].uid) && s'.store.requests[k].status.state == Approved {
      assert EverRejected(s.log, k, s.store.requests[k].uid);
    }
  }

  /** A new incarnation has no past. */
  lemma NewRequestKeepsRejected(s: System, k: Key, requestedBy: Option<string>, spec: RequestSpec)
    requires Inv(s) && NoLateJobs(s.log, k) && k !in s.store.requests
    ensures var s' := AddRequest(s, k, requestedBy, spec); RejectedSafe(s', k) && NoLateJobs(s'.log, k)
  {
    var s' := AddRequest(s, k, requestedBy, spec);
    Appended(s.log, Last(s'.log));
    forall e | e in s'.log ensures !Rejects(e, k, s'.store.requests[k].uid) {
      if e in s.log && About(e, k) {
        assert Uid(e) <= Rev(s.store.requestRev, k);
      }
    }
  }

  lemma PutWrites(s: System, k: Key, status: RequestStatus)
    requires k in s.store.requests
    ensures var s' := PutStatus(s, k, status, None);
            && k in s'.store.requests && SameRequest(s'.store.requests[k], s.store.requests[k])
            && s'.store.requests[k].status == status
            && s'.store.clock == s.store.clock && s'.store.ttl == s.store.ttl
  {
  }

  /** What is stored after an update sent from the stored version, and when the reconcile is over. */
  lemma UpdateWrites(s: System, k: Key, jr: JobRequest, status: RequestStatus, rest: seq<RequestState>, outcome: Outcome)
    requires Stored(s.store.requests, k) == Some(jr)
    ensures var s' := AdvanceRequest(s, k, Writing(jr, status, rest), outcome);
            && k in s'.store.requests && SameRequest(s'.store.requests[k], jr)
            && s'.store.requests[k].status == (if outcome == Fails then jr.status else status)
            && s'.store.clock == s.store.clock && s'.store.ttl == s.store.ttl
            && (rest == [] ==> k !in s'.requestTasks)
  {
    var task := Writing(jr, status, rest);
    assert AdvanceRequest(s, k, task, outcome).store == RequestEffect(s, k, task, outcome).store;
    assert rest == [] ==> RequestNext(s, k, task, outcome) == None;
    if outcome != Fails {
      PutWrites(s, k, status);
      assert RequestEffect(s, k, task, outcome) == PutStatus(s, k, status, None);
    }
  }

  /** An update of a rejected request leaves it shut, or sends a due one back to Pending. */
  lemma UpdateKeepsShut(s: System, k: Key, jr: JobRequest, status: RequestStatus, rest: seq<RequestState>, outcome: Outcome)
    requires Stored(s.store.requests, k) == Some(jr) && Shut(jr)
    requires Update(k, jr, status, rest) && DueTask(s.store, Writing(jr, status, rest), Reject)
    ensures var s' := AdvanceRequest(s, k, Writing(jr, status, rest), outcome);
            && k in s'.store.requests && s'.store.requests[k].uid == jr.uid
            && (Shut(s'.store.requests[k]) || Due(s', k))
  {
    UpdateWrites(s, k, jr, status, rest, outcome);
  }

  /** The request's own reconcile keeps a rejected request shut, or finds it due. */
  lemma OwnStepKeepsShut(s: System, k: Key, task: RequestTask, outcome: Outcome)
    requires Recorded(s) && Holds(Stored(s.store.requests, k), k, task) && DueTask(s.store, task, Reject)
    requires k in s.store.requests && Shut(s.store.requests[k])
    ensures var s' := AdvanceRequest(s, k, task, outcome);
            k in s'.store.requests ==>
              s'.store.requests[k].uid == s.store.requests[k].uid && (Shut(s'.store.requests[k]) || Due(s', k))
  {
    if task.Writing? && Fresh(s.store, k, task.jr) {
      UpdateIsTransition(s, k, task.jr, task.status, task.rest);
      UpdateKeepsShut(s, k, task.jr, task.status, task.rest, outcome);
    }
  }

  /** The incarnation stored after a call was stored before it. */
  lemma StoredBefore(s: System, k: Key, task: RequestTask, outcome: Outcome)
    requires k in RequestEffect(s, k, task, outcome).store.requests
    ensures k in s.store.requests
    ensures RequestEffect(s, k, task, outcome).store.requests[k].uid == s.store.requests[k].uid
  {
  }

  /** What the operator logs rejects nothing, and is no Job for a rejected request. */
  lemma RequestStepLogsNoRejection(s: System, k: Key, outcome: Outcome)
    requires Inv(s) && RejectedSafe(s, k) && NoLateJobs(s.log, k) && k in s.requestTasks
    ensures var s' := AdvanceRequest(s, k, s.requestTasks[k], outcome);
            && NoLateJobs(s'.log, k)
            && forall uid :: EverRejected(s'.log, k, uid) ==> EverRejected(s.log, k, uid)
  {
    var task := s.requestTasks[k];
    var s' := AdvanceRequest(s, k, task, outcome);
    assert Holds(Stored(s.store.requests, k), k, task);
    RequestEffectLog(s, k, task, outcome);
    if s'.log != s.log {
      Appended(s.log, Last(s'.log));
    }
  }

  lemma OwnStepKeepsRejected(s: System, k: Key, outcome: Outcome)
    requires Inv(s) && Timely(s, k, Reject) && RejectedSafe(s, k) && NoLateJobs(s.log, k) && k in s.requestTasks
    ensures var s' := AdvanceRequest(s, k, s.requestTasks[k], outcome); RejectedSafe(s', k) && NoLateJobs(s'.log, k)
  {
    var task := s.requestTasks[k];
    var s' := AdvanceRequest(s, k, task, outcome);
    RequestStepLogsNoRejection(s, k, outcome);
    assert Holds(Stored(s.store.requests, k), k, task);
    if k in s'.store.requests && EverRejected(s'.log, k, s'.store.requests[k].uid) {
      StoredBefore(s, k, task, outcome);
      if Shut(s.store.requests[k]) {
        OwnStepKeepsShut(s, k, task, outcome);
      } else {
        OwnStepStaysDue(s, k, outcome);
      }
    }
  }

  lemma StepKeepsRejected(s: System, a: Action, k: Key)
    requires Inv(s) && Timely(s, k, Reject) && RejectedSafe(s, k) && NoLateJobs(s.log, k)
    ensures RejectedSafe(Step(s, a), k) && NoLateJobs(Step(s, a).log, k)
  {
    if a.StepRequest? && a.key == k {
      if k in s.requestTasks {
        OwnStepKeepsRejected(s, k, a.outcome);
      }
    } else if !Touches(s, a, k) {
      OthersLeaveAlone(s, a, k);
      LeftAloneKeepsRejected(s, Step(s, a), k);
    } else if a.CreateRequest? {
      NewRequestKeepsRejected(s, k, a.requestedBy, a.spec);
    } else {
      CommitDecides(s, a.key, a.outcome);
      DecisionKeepsRejected(s, Step(s, a), k);
    }
  }

  lemma {:induction false} CalmRunKeepsRejected(s: System, actions: seq<Action>, k: Key)
    requires Initial(s) && CalmRun(s, actions, k, Reject)
    ensures RejectedSafe(Run(s, actions), k) && NoLateJobs(Run(s, actions).log, k)
    decreases |actions|
  {
    if actions != [] {
      var prefix, a := actions[..|actions| - 1], actions[|actions| - 1];
      CalmRunKeepsTimely(s, prefix, k, Reject);
      CalmRunKeepsRejected(s, prefix, k);
      StepKeepsRejected(Run(s, prefix), a, k);
    }
  }

  lemma {:induction false} NoLateJobsAt(log: seq<Event>, j: nat, k: Key)
    requires NoLateJobs(log, k) && j < |log| && log[j].JobCreated? && log[j].key == k
    ensures !EverRejected(log[..j], k, log[j].request.uid)
    decreases |log|
  {
    if j < |log| - 1 {
      NoLateJobsAt(Init(log), j, k);
      assert Init(log)[..j] == log[..j];
    }
  }

  /** Pruning never revives a rejection: in a run that is calm for the rejections of `k` no Job is
      created for an incarnation of it after it was rejected, whatever happens to other requests. */
  lemma RejectedNeverRuns(s: System, actions: seq<Action>, i: nat, j: nat, k: Key, uid: nat)
    requires Initial(s) && CalmRun(s, actions, k, Reject)
    requires i < j < |Run(s, actions).log| && Rejects(Run(s, actions).log[i], k, uid)
    ensures !MakesJob(Run(s, actions).log[j], k, uid)
  {
    var log := Run(s, actions).log;
    CalmRunKeepsRejected(s, actions, k);
    if log[j].JobCreated? && log[j].key == k {
      NoLateJobsAt(log, j, k);
      assert log[..j][i] == log[i];
    }
  }

  /* ---------- at most one Job ---------- */

  predicate Used(jr: JobRequest) {
    InLoop(jr.status.state) || jr.status.state == Malformed || jr.status.state == Conflicted
  }

  predicate UseKnown(s: System, k: Key) {
    k in s.store.requests ==> Used(s.store.requests[k]) || Posting(s, k) || Due(s, k)
  }

  /** An incarnation with a Job shows it, or is about to, or is due. */
  predicate MadeSafe(s: System, k: Key) {
    k in s.store.requests && EverMade(s.log, k, s.store.requests[k].uid) ==> UseKnown(s, k)
  }

  predicate SingleJobs(log: seq<Event>, k: Key) {
    log != [] ==>
      && SingleJobs(Init(log), k)
      && (Last(log).JobCreated? && Last(log).key == k ==> !EverMade(Init(log), k, Last(log).request.uid))
  }

  lemma LeftAloneKeepsMade(s: System, s': System, k: Key)
    requires MadeSafe(s, k) && SingleJobs(s.log, k) && LeavesAlone(s, s', k)
    requires Untold(s, k) ==> Stored(s'.requestTasks, k) == Some(s.requestTasks[k])
    ensures MadeSafe(s', k) && SingleJobs(s'.log, k)
  {
    if s'.log != s.log {
      Appended(s.log, Last(s'.log));
    }
    if k in s'.store.requests && EverMade(s'.log, k, s'.store.requests[k].uid) {
      assert EverMade(s.log, k, s.store.requests[k].uid);
    }
  }

  /** The update that shows the Job is not dropped by others. */
  lemma OthersKeepPosting(s: System, a: Action, k: Key)
    requires Posting(s, k) && !(a.StepRequest? && a.key == k) && a != StopRequest(k)
    ensures Stored(Step(s, a).requestTasks, k) == Some(s.requestTasks[k])
  {
    if a.StepRequest? && a.key in s.requestTasks {
      RequestEffectLocal(s, a.key, s.requestTasks[a.key], a.outcome);
    } else if a.StepReview? && a.key in s.reviewTasks {
      ReviewEffectLocal(s, a.key, s.reviewTasks[a.key], a.outcome);
    }
  }

  lemma DecisionKeepsMade(s: System, s': System, k: Key)
    requires MadeSafe(s, k) && SingleJobs(s.log, k) && DecidedNow(s, s', k)
    ensures MadeSafe(s', k) && SingleJobs(s'.log, k)
  {
    Appended(s.log, Last(s'.log));
    if EverMade(s'.log, k, s'.store.requests[k].uid) {
      assert EverMade(s.log, k, s.store.requests[k].uid);
    }
  }

  lemma NewRequestKeepsMade(s: System, k: Key, requestedBy: Option<string>, spec: RequestSpec)
    requires Inv(s) && SingleJobs(s.log, k) && k !in s.store.requests
    ensures var s' := AddRequest(s, k, requestedBy, spec); MadeSafe(s', k) && SingleJobs(s'.log, k)
  {
    var s' := AddRequest(s, k, requestedBy, spec);
    Appended(s.log, Last(s'.log));
    forall e | e in s'.log ensures !MakesJob(e, k, s'.store.requests[k].uid) {
      if e in s.log && About(e, k) {
        assert Uid(e) <= Rev(s.store.requestRev, k);
      }
    }
  }

  /** The request's own reconcile keeps the use known. */
  lemma OwnStepKeepsUse(s: System, k: Key, task: RequestTask, outcome: Outcome)
    requires Recorded(s) && Holds(Stored(s.store.requests, k), k, task) && DueTask(s.store, task, Approve)
    requires k in s.requestTasks && s.requestTasks[k] == task && k in s.store.requests && UseKnown(s, k)
    requires Posting(s, k) ==> outcome != Fails
    ensures UseKnown(AdvanceRequest(s, k, task, outcome), k)
  {
    if Due(s, k) {
      OwnStepStaysDue(s, k, outcome);
    } else if task.Writing? && Fresh(s.store, k, task.jr) {
      UpdateIsTransition(s, k, task.jr, task.status, task.rest);
      UpdateKeepsUse(s, k, task.jr, task.status, task.rest, outcome);
    }
  }

  lemma UpdateKeepsUse(s: System, k: Key, jr: JobRequest, status: RequestStatus, rest: seq<RequestState>, outcome: Outcome)
    requires k in s.store.requests && s.store.requests[k] == jr
    requires Used(jr) || outcome != Fails
    requires Update(k, jr, status, rest) && DueTask(s.store, Writing(jr, status, rest), Approve)
    requires Used(jr) || (jr.status.state == Approved && (status.state == Started || status.state == Malformed))
    ensures UseKnown(AdvanceRequest(s, k, Writing(jr, status, rest), outcome), k)
  {
    UpdateWrites(s, k, jr, status, rest, outcome);
  }

  lemma MakingPosts(s: System, k: Key, jr: JobRequest, job: Job, outcome: Outcome)
    requires k in s.store.requests && s.store.requests[k] == jr && jr.status.state == Approved
    ensures Posting(AdvanceRequest(s, k, CreatingJob(jr, job), outcome), k)
  {
  }

  /** What the operator logs is a Job only for a request without one. */
  lemma RequestStepLogsOneJob(s: System, k: Key, outcome: Outcome)
    requires Inv(s) && MadeSafe(s, k) && SingleJobs(s.log, k) && k in s.requestTasks
    ensures var s' := AdvanceRequest(s, k, s.requestTasks[k], outcome);
            && SingleJobs(s'.log, k)
            && (!s.requestTasks[k].CreatingJob? ==> forall uid :: EverMade(s'.log, k, uid) ==> EverMade(s.log, k, uid))
  {
    var task := s.requestTasks[k];
    var s' := AdvanceRequest(s, k, task, outcome);
    assert Holds(Stored(s.store.requests, k), k, task);
    RequestEffectLog(s, k, task, outcome);
    if s'.log != s.log {
      if task.CreatingJob? {
        CreatingIsFirst(s, k);
      }
      OneMoreJob(s.log, Last(s'.log), k);
    }
  }

  /** A reconcile about to create a Job has none for this incarnation. */
  lemma CreatingIsFirst(s: System, k: Key)
    requires MadeSafe(s, k) && k in s.requestTasks && s.requestTasks[k].CreatingJob?
    requires Holds(Stored(s.store.requests, k), k, s.requestTasks[k])
    ensures k in s.store.requests && !EverMade(s.log, k, s.store.requests[k].uid)
  {
    assert !UseKnown(s, k);
  }

  lemma OneMoreJob(log: seq<Event>, e: Event, k: Key)
    requires SingleJobs(log, k) && (e.JobCreated? && e.key == k ==> !EverMade(log, k, e.request.uid))
    ensures SingleJobs(log + [e], k)
    ensures !(e.JobCreated? && e.key == k) ==> forall uid :: EverMade(log + [e], k, uid) ==> EverMade(log, k, uid)
  {
    Appended(log, e);
  }

  lemma OwnStepKeepsMade(s: System, k: Key, outcome: Outcome)
    requires Inv(s) && Timely(s, k, Approve) && MadeSafe(s, k) && SingleJobs(s.log, k) && k in s.requestTasks
    requires Untold(s, k) ==> outcome != Fails
    ensures var s' := AdvanceRequest(s, k, s.requestTasks[k], outcome); MadeSafe(s', k) && SingleJobs(s'.log, k)
  {
    var task := s.requestTasks[k];
    var s' := AdvanceRequest(s, k, task, outcome);
    RequestStepLogsOneJob(s, k, outcome);
    assert Holds(Stored(s.store.requests, k), k, task);
    if task.CreatingJob? {
      MakingPosts(s, k, task.jr, task.job, outcome);
    } else if k in s'.store.requests && EverMade(s'.log, k, s'.store.requests[k].uid) {
      StoredBefore(s, k, task, outcome);
      OwnStepKeepsUse(s, k, task, outcome);
    }
  }

  lemma StepKeepsMade(s: System, a: Action, k: Key)
    requires Inv(s) && Timely(s, k, Approve) && MadeSafe(s, k) && SingleJobs(s.log, k) && Reliable(s, a, k)
    ensures MadeSafe(Step(s, a), k) && SingleJobs(Step(s, a).log, k)
  {
    if a.StepRequest? && a.key == k {
      if k in s.requestTasks {
        OwnStepKeepsMade(s, k, a.outcome);
      }
    } else if !Touches(s, a, k) {
      OthersLeaveAlone(s, a, k);
      if Untold(s, k) {
        OthersKeepPosting(s, a, k);
      }
      LeftAloneKeepsMade(s, Step(s, a), k);
    } else if a.CreateRequest? {
      NewRequestKeepsMade(s, k, a.requestedBy, a.spec);
    } else {
      CommitDecides(s, a.key, a.outcome);
      DecisionKeepsMade(s, Step(s, a), k);
    }
  }

  lemma {:induction false} ReliableRunKeepsMade(s: System, actions: seq<Action>, k: Key)
    requires Initial(s) && CalmRun(s, actions, k, Approve) && ReliableRun(s, actions, k)
    ensures var s' := Run(s, actions); MadeSafe(s', k) && SingleJobs(s'.log, k)
    decreases |actions|
  {
    if actions != [] {
      var prefix, a := actions[..|actions| - 1], actions[|actions| - 1];
      CalmRunKeepsTimely(s, prefix, k, Approve);
      ReliableRunKeepsMade(s, prefix, k);
      StepKeepsMade(Run(s, prefix), a, k);
    }
  }

  lemma {:induction false} SingleJobsAt(log: seq<Event>, j: nat, k: Key)
    requires SingleJobs(log, k) && j < |log| && log[j].JobCreated? && log[j].key == k
    ensures !EverMade(log[..j], k, log[j].request.uid)
    decreases |log|
  {
    if j < |log| - 1 {
      SingleJobsAt(Init(log), j, k);
      assert Init(log)[..j] == log[..j];
    }
  }

  /** In a run that is calm for the approvals of `k` and in which the operator does not lose track of
      its Job, at most one Job is created for an incarnation of it, even if Jobs are removed at any time
      and whatever happens to other requests. */
  lemma AtMostOneJob(s: System, actions: seq<Action>, i: nat, j: nat, k: Key, uid: nat)
    requires Initial(s) && CalmRun(s, actions, k, Approve) && ReliableRun(s, actions, k)
    requires i < j < |Run(s, actions).log| && MakesJob(Run(s, actions).log[i], k, uid)
    ensures !MakesJob(Run(s, actions).log[j], k, uid)
  {
    var log := Run(s, actions).log;
    ReliableRunKeepsMade(s, actions, k);
    if log[j].JobCreated? && log[j].key == k {
      SingleJobsAt(log, j, k);
      assert log[..j][i] == log[i];
    }
  }
}
