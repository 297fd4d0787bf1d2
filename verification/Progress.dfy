/** How a request gets on. Left alone it goes from no state to the outcome of its Job, Complete or
    Failed, when another user approves it. But it must become Pending before anybody reviews it: one
    that already has a review when the operator first lists them stays without a state as long as the
    review is there. */
module Progress {
  import opened Api
  import opened UserIdentity
  import opened Protocol
  import opened History
  import opened Invariant
  import opened Bounds
  import opened Forms
  import opened Sequential

  /** The request is in order and young, and has a review. */
  predicate Reviewed(st: Store, k: Key) {
    k in st.requests && !Expired(st, st.requests[k].created) && Inputs(st, k) && ReviewsOf(st, k) != {}
  }

  /** It has no state yet, and its reconcile, if any, holds it as it is and is not about to write. */
  predicate Stuck(s: System, k: Key) {
    && Reviewed(s.store, k)
    && s.store.requests[k].status.state == Unset
    && (k in s.requestTasks ==>
          s.requestTasks[k].jr == s.store.requests[k]
          && (s.requestTasks[k].Fetched? || s.requestTasks[k].FindingDeployment? || s.requestTasks[k].FindingReviews?))
  }

  /** Listing its reviews does not fail. */
  predicate ListWorks(s: System, a: Action, k: Key) {
    a.StepRequest? && a.key == k && k in s.requestTasks && s.requestTasks[k].FindingReviews? ==> a.outcome == Ok
  }

  lemma OwnStepStaysStuck(s: System, k: Key, outcome: Outcome)
    requires Stuck(s, k) && k in s.requestTasks && ListWorks(s, StepRequest(k, outcome), k)
    ensures var s' := AdvanceRequest(s, k, s.requestTasks[k], outcome); s'.store == s.store && Stuck(s', k)
  {
  }

  lemma ReviewStepLeavesUnset(s: System, rk: Key, outcome: Outcome, k: Key)
    requires Inv(s) && rk in s.reviewTasks && k in s.store.requests && s.store.requests[k].status.state == Unset
    ensures Stored(ReviewEffect(s, rk, s.reviewTasks[rk], outcome).store.requests, k) == Some(s.store.requests[k])
  {
    ReviewEffectLocal(s, rk, s.reviewTasks[rk], outcome);
    var task := s.reviewTasks[rk];
    if task.Committing? && Fresh(s.store, Target(rk, task.rv), task.jr) {
      DecisionIsTransition(s, rk, task.rv, task.jr);
    }
  }

  /** The request is as in `s`, and its reconcile too, or has just begun. */
  predicate Untouched(s: System, s': System, k: Key)
    requires k in s.store.requests
  {
    && Stored(s'.store.requests, k) == Some(s.store.requests[k])
    && (k in s'.requestTasks ==>
          Stored(s.requestTasks, k) == Some(s'.requestTasks[k]) || s'.requestTasks[k] == Fetched(s.store.requests[k]))
  }

  lemma OtherActionLeavesUnset(s: System, a: Action, k: Key)
    requires k in s.store.requests && !a.StepRequest? && !a.StepReview?
    ensures Untouched(s, Step(s, a), k)
  {
  }

  /** No step of anybody else touches the request or its reconcile. */
  lemma OthersLeaveUnset(s: System, a: Action, k: Key)
    requires Inv(s) && k in s.store.requests && s.store.requests[k].status.state == Unset
    requires !(a.StepRequest? && a.key == k)
    ensures Untouched(s, Step(s, a), k)
  {
    if a.StepRequest? {
      if a.key in s.requestTasks {
        RequestEffectLocal(s, a.key, s.requestTasks[a.key], a.outcome);
      }
    } else if a.StepReview? {
      if a.key in s.reviewTasks {
        ReviewStepLeavesUnset(s, a.key, a.outcome, k);
        ReviewEffectLocal(s, a.key, s.reviewTasks[a.key], a.outcome);
      }
    } else {
      OtherActionLeavesUnset(s, a, k);
    }
  }

  /** Whatever step is taken, the request stays as it is while it is in order, young and reviewed. */
  lemma StuckStaysStuck(s: System, a: Action, k: Key)
    requires Inv(s) && Stuck(s, k) && ListWorks(s, a, k) && Reviewed(Step(s, a).store, k)
    ensures Stuck(Step(s, a), k) && Step(s, a).store.requests[k] == s.store.requests[k]
  {
    if a.StepRequest? && a.key == k {
      if k in s.requestTasks {
        OwnStepStaysStuck(s, k, a.outcome);
      }
    } else {
      OthersLeaveUnset(s, a, k);
    }
  }

  /** All along the run the request is in order, young and reviewed, and the lists work. */
  predicate ReviewedThroughout(s: System, actions: seq<Action>, k: Key) {
    && Reviewed(Run(s, actions).store, k)
    && (actions != [] ==>
          ReviewedThroughout(s, actions[..|actions| - 1], k)
          && ListWorks(Run(s, actions[..|actions| - 1]), actions[|actions| - 1], k))
  }

  lemma {:induction false} StuckRun(s: System, actions: seq<Action>, k: Key)
    requires Inv(s) && Stuck(s, k) && ReviewedThroughout(s, actions, k)
    ensures Stuck(Run(s, actions), k) && Run(s, actions).store.requests[k] == s.store.requests[k]
    decreases |actions|
  {
    if actions != [] {
      var prefix := actions[..|actions| - 1];
      StuckRun(s, prefix, k);
      RunKeepsInv(s, prefix);
      StuckStaysStuck(Run(s, prefix), actions[|actions| - 1], k);
    }
  }

  /* ---------- its reviews ---------- */

  /** Review `rk` of `k` is valid, young and undecided, and its reconcile, if any, is not yet writing. */
  predicate Waits(s: System, rk: Key, k: Key) {
    && rk in s.store.reviews && Target(rk, s.store.reviews[rk]) == k
    && s.store.reviews[rk].state == Undecided && IdentityOf(s.store.reviews[rk].reviewedBy).Some?
    && !Expired(s.store, s.store.reviews[rk].created)
    && (rk in s.reviewTasks ==>
          s.reviewTasks[rk].rv == s.store.reviews[rk] && (s.reviewTasks[rk].FetchedReview? || s.reviewTasks[rk].FindingRequest?))
  }

  /** The cache serves no form of an earlier review of that name. */
  predicate ServesIt(s: System, a: Action, rk: Key) {
    a.StartReview? && a.key == rk && a.cached.Some? && rk in s.store.reviews ==> a.cached.value.uid == s.store.reviews[rk].uid
  }

  lemma OwnCallWaits(s: System, rk: Key, outcome: Outcome, k: Key)
    requires Waits(s, rk, k) && rk in s.reviewTasks && k in s.store.requests && s.store.requests[k].status.state == Unset
    ensures var s' := AdvanceReview(s, rk, s.reviewTasks[rk], outcome); s'.store == s.store && Waits(s', rk, k)
  {
  }

  lemma BeginningWaits(s: System, rk: Key, k: Key)
    requires Waits(s, rk, k)
    ensures Waits(BusyReview(s, rk, FetchedReview(s.store.reviews[rk])), rk, k)
  {
  }

  /** No step of anybody else touches the review or what its reconcile holds. */
  lemma OthersLeaveReview(s: System, a: Action, rk: Key)
    requires rk in s.store.reviews && !((a.StepReview? || a.StartReview?) && a.key == rk)
    ensures var s' := Step(s, a);
            && Stored(s'.store.reviews, rk) == Some(s.store.reviews[rk])
            && (rk in s'.reviewTasks ==> Stored(s.reviewTasks, rk) == Some(s'.reviewTasks[rk]))
  {
    if a.StepRequest? && a.key in s.requestTasks {
      RequestEffectTime(s, a.key, s.requestTasks[a.key], a.outcome);
      RequestEffectLocal(s, a.key, s.requestTasks[a.key], a.outcome);
    } else if a.StepReview? && a.key in s.reviewTasks {
      ReviewEffectOwn(s, a.key, s.reviewTasks[a.key], a.outcome);
      ReviewEffectLocal(s, a.key, s.reviewTasks[a.key], a.outcome);
    }
  }

  lemma OtherStepWaits(s: System, a: Action, rk: Key, k: Key)
    requires Waits(s, rk, k) && !((a.StepReview? || a.StartReview?) && a.key == rk)
    requires !Expired(Step(s, a).store, s.store.reviews[rk].created)
    ensures Waits(Step(s, a), rk, k) && Step(s, a).store.reviews[rk] == s.store.reviews[rk]
  {
    OthersLeaveReview(s, a, rk);
  }

  lemma ServedIsStored(s: System, rk: Key, v: Review)
    requires Inv(s) && Ordered(s.store) && rk in s.store.reviews && s.store.reviews[rk].state == Undecided
    requires v.uid == s.store.reviews[rk].uid
    ensures v in SeenOf(s.store.seen, rk) ==> v == s.store.reviews[rk]
  {
    if v in SeenOf(s.store.seen, rk) {
      UndecidedIsOnlyForm(s.store, s.log, rk, v);
    }
  }

  lemma NothingStarts(s: System, rk: Key, cached: Option<Review>)
    requires !(IdleReview(s, rk) && cached.Some? && cached.value in SeenOf(s.store.seen, rk))
    ensures Step(s, StartReview(rk, cached)) == s
  {
  }

  lemma OwnStartWaits(s: System, rk: Key, cached: Option<Review>, k: Key)
    requires Waits(s, rk, k) && (cached.Some? && cached.value in SeenOf(s.store.seen, rk) ==> cached.value == s.store.reviews[rk])
    ensures Waits(Step(s, StartReview(rk, cached)), rk, k)
    ensures Step(s, StartReview(rk, cached)).store == s.store
  {
    if IdleReview(s, rk) && cached.Some? && cached.value in SeenOf(s.store.seen, rk) {
      StartsFrom(s, rk, cached.value);
      BeginningWaits(s, rk, k);
    } else {
      NothingStarts(s, rk, cached);
    }
  }

  /** Whatever step is taken, the review stays undecided while its request is stateless and it is
      young. */
  lemma ReviewKeepsWaiting(s: System, a: Action, rk: Key, k: Key)
    requires Inv(s) && Ordered(s.store) && Waits(s, rk, k) && ServesIt(s, a, rk)
    requires k in s.store.requests && s.store.requests[k].status.state == Unset
    requires !Expired(Step(s, a).store, s.store.reviews[rk].created)
    ensures Waits(Step(s, a), rk, k) && Step(s, a).store.reviews[rk] == s.store.reviews[rk]
  {
    if a.StepReview? && a.key == rk {
      if rk in s.reviewTasks {
        OwnCallWaits(s, rk, a.outcome, k);
      }
    } else if a.StartReview? && a.key == rk {
      if a.cached.Some? {
        ServedIsStored(s, rk, a.cached.value);
      }
      OwnStartWaits(s, rk, a.cached, k);
    } else {
      OtherStepWaits(s, a, rk, k);
    }
  }

  /** All along the run the review is young, and the cache serves no earlier one of its name. */
  predicate YoungThroughout(s: System, actions: seq<Action>, rk: Key, created: nat) {
    && !Expired(Run(s, actions).store, created)
    && (actions != [] ==>
          YoungThroughout(s, actions[..|actions| - 1], rk, created)
          && ServesIt(Run(s, actions[..|actions| - 1]), actions[|actions| - 1], rk))
  }

  /** The reviews of a stuck request only try again later: in a run in which it is stuck none of its
      valid young reviews gets a verdict. */
  lemma {:induction false} ReviewsOnlyRequeue(s: System, actions: seq<Action>, k: Key, rk: Key)
    requires Inv(s) && Ordered(s.store) && Stuck(s, k) && ReviewedThroughout(s, actions, k)
    requires Waits(s, rk, k) && YoungThroughout(s, actions, rk, s.store.reviews[rk].created)
    ensures var s' := Run(s, actions);
            Ordered(s'.store) && Waits(s', rk, k) && s'.store.reviews[rk] == s.store.reviews[rk]
    decreases |actions|
  {
    if actions != [] {
      var prefix, a := actions[..|actions| - 1], actions[|actions| - 1];
      ReviewsOnlyRequeue(s, prefix, k, rk);
      StuckRun(s, prefix, k);
      RunKeepsInv(s, prefix);
      StepKeepsOrdered(Run(s, prefix), a);
      ReviewKeepsWaiting(Run(s, prefix), a, rk, k);
    }
  }

  /** An undisturbed reconcile gives a stateless request in order its first state exactly when it
      has no review yet. */
  lemma FirstStateExactly(s: System, k: Key)
    requires Idle(s, k) && Proceeds(s.store, k) && s.store.requests[k].status.state == Unset
    ensures var s' := WholeRequest(s, k);
            && k in s'.store.requests
            && (ReviewsOf(s.store, k) == {} <==> s'.store.requests[k].status.state == Pending)
            && (ReviewsOf(s.store, k) != {} ==> s'.store == s.store)
  {
    WholeIsBigStep(s, k);
  }

  /* ---------- the way from a new request to a finished Job ---------- */

  lemma BecomesPending(s: System, k: Key)
    requires Proceeds(s.store, k) && s.store.requests[k].status.state == Unset && ReviewsOf(s.store, k) == {}
    ensures var st, st' := s.store, BigStep(s, k).store;
            && Proceeds(st', k) && SameRequest(st'.requests[k], st.requests[k])
            && st'.requests[k].status == st.requests[k].status.(state := Pending)
            && st' == st.(requests := st'.requests, requestRev := st'.requestRev)
  {
    PutStatusKeeps(s, k, s.store.requests[k].status.(state := Pending));
  }

  /** A request that a user files is stored as asked, without a status, created now, as a new incarnation. */
  lemma RequestFiledAsAsked(s: System, k: Key, requestedBy: Option<string>, spec: RequestSpec)
    requires Recorded(s) && k !in s.store.requests
    ensures var st, st' := s.store, Step(s, CreateRequest(k, requestedBy, spec)).store;
            && st' == st.(requests := st'.requests, requestRev := st'.requestRev) && k in st'.requests
            && st'.requests - {k} == st.requests
            && st'.requests[k].requestedBy == requestedBy && st'.requests[k].spec == spec
            && st'.requests[k].created == st.clock && st'.requests[k].status == RequestStatus("", Unset, "")
            && forall e | e in s.log && AboutRequest(e) && e.key == k :: Uid(e) != st'.requests[k].uid
  {
    var n := Rev(s.store.requestRev, k) + 1;
    var jr := JobRequest(n, n, s.store.clock, requestedBy, spec, BLANK_STATUS);
    assert s.store.requests[k := jr] - {k} == s.store.requests;
  }

  lemma NewToTheLog(s: System, rk: Key)
    requires Recorded(s)
    ensures forall e | e in s.log && AboutReview(e) && e.key == rk :: ReviewUid(e) != Rev(s.store.reviewRev, rk) + 1
  {
  }

  /** So is a review. */
  lemma ReviewFiledAsAsked(s: System, rk: Key, reviewedBy: Option<string>, name: string, decision: Decision)
    requires Recorded(s) && rk !in s.store.reviews
    ensures var st, st' := s.store, Step(s, CreateReview(rk, reviewedBy, name, decision)).store;
            && st' == st.(reviews := st'.reviews, reviewRev := st'.reviewRev, seen := st'.seen) && rk in st'.reviews
            && st'.reviews - {rk} == st.reviews
            && st'.reviews[rk].reviewedBy == reviewedBy && st'.reviews[rk].requestName == name
            && st'.reviews[rk].decision == decision && st'.reviews[rk].created == st.clock
            && st'.reviews[rk].state == Undecided
    ensures var uid := Step(s, CreateReview(rk, reviewedBy, name, decision)).store.reviews[rk].uid;
            forall e | e in s.log && AboutReview(e) && e.key == rk :: ReviewUid(e) != uid
  {
    var n := Rev(s.store.reviewRev, rk) + 1;
    NewToTheLog(s, rk);
    var rv := Review(n, n, s.store.clock, reviewedBy, name, decision, Undecided);
    assert s.store.reviews[rk := rv] - {rk} == s.store.reviews;
  }

  lemma ReviewIsFiled(s: System, k: Key, rk: Key, reviewedBy: Option<string>)
    requires Proceeds(s.store, k) && rk !in s.store.reviews && rk.namespace == k.namespace && s.store.ttl > 0
    requires DifferentPeople(s.store.requests[k].requestedBy, reviewedBy)
    ensures var st' := Step(s, CreateReview(rk, reviewedBy, k.name, Approve)).store;
            && Proceeds(st', k) && CouldApprove(st', k, rk)
            && st'.requests == s.store.requests && st'.jobs == s.store.jobs
  {
    var s' := Step(s, CreateReview(rk, reviewedBy, k.name, Approve));
    FiledReview(s, k, rk, reviewedBy);
    StaysInOrder(s.store, s'.store, k);
    assert rk in ReviewsOf(s'.store, k);
  }

  lemma FiledReview(s: System, k: Key, rk: Key, reviewedBy: Option<string>)
    requires rk !in s.store.reviews && rk.namespace == k.namespace
    ensures var st, st' := s.store, Step(s, CreateReview(rk, reviewedBy, k.name, Approve)).store;
            && st' == st.(reviews := st'.reviews, reviewRev := st'.reviewRev, seen := st'.seen)
            && rk in st'.reviews && Target(rk, st'.reviews[rk]) == k && st'.reviews[rk].created == st.clock
            && st'.reviews[rk].state == Undecided && st'.reviews[rk].decision == Approve && st'.reviews[rk].reviewedBy == reviewedBy
  {
  }

  /** The conditions report one outcome, and which. */
  predicate Reports(conditions: seq<Condition>, outcome: RequestState) {
    && OneOutcome(conditions)
    && ((outcome == Complete && exists c | c in conditions :: c.isTrue && c.kind == JobComplete)
        || (outcome == Failed && exists c | c in conditions :: c.isTrue && c.kind == JobFailed))
  }

  lemma ReportsIsLoop(conditions: seq<Condition>, outcome: RequestState)
    requires Reports(conditions, outcome)
    ensures FinalStates(conditions) != [] && AllAre(FinalStates(conditions), outcome)
  {
    FinalStatesFrom(conditions);
    LoopWritesOneState(conditions);
    var i :| 0 <= i < |FinalStates(conditions)| && FinalStates(conditions)[i] == outcome;
  }

  lemma {:induction false} PutSameStates(s: System, k: Key, states: seq<RequestState>, state: RequestState)
    requires k in s.store.requests && states != [] && AllAre(states, state)
    ensures PutStates(s, k, states) == PutState(s, k, state)
    decreases |states|
  {
    AllAreCons(states, state);
    var s1 := PutState(s, k, state);
    PutStateNotes(s, k, state);
    if states[1..] != [] {
      PutSameStates(s1, k, states[1..], state);
      PutStateNotes(s1, k, state);
    }
  }

  /** A request in order stays so while only its status and Jobs change. */
  lemma StaysInOrder(st: Store, st': Store, k: Key)
    requires Proceeds(st, k) && k in st'.requests && SameRequest(st'.requests[k], st.requests[k])
    requires st'.clock == st.clock && st'.ttl == st.ttl && st'.deployments == st.deployments
    ensures Terminal(st'.requests[k].status.state) || Proceeds(st', k)
    ensures st'.reviews == st.reviews ==> ReviewsOf(st', k) == ReviewsOf(st, k)
  {
  }

  lemma Finishes(s: System, k: Key, job: Job, outcome: RequestState)
    requires Proceeds(s.store, k) && s.store.requests[k].status.state == Started && ReviewsOf(s.store, k) != {}
    requires Reports(job.conditions, outcome)
    ensures var s' := BigStep(Step(s, SetJob(k, Some(job))), k);
            k in s'.store.requests && s'.store.requests[k].status == s.store.requests[k].status.(state := outcome)
  {
    var s1 := Step(s, SetJob(k, Some(job)));
    StaysInOrder(s.store, s1.store, k);
    assert BigStep(s1, k) == PutStates(s1, k, FinalStates(job.conditions));
    ReportsIsLoop(job.conditions, outcome);
    PutSameStates(s1, k, FinalStates(job.conditions), outcome);
    PutStatusKeeps(s1, k, s1.store.requests[k].status.(state := outcome));
  }

  /** From the approval on. */
  lemma ApprovedFinishes(s: System, k: Key, job: Job, outcome: RequestState)
    requires Proceeds(s.store, k) && s.store.requests[k].status.state == Approved && ReviewsOf(s.store, k) != {}
    requires k !in s.store.jobs && Reports(job.conditions, outcome)
    ensures var started := BigStep(s, k);
            var finished := BigStep(Step(started, SetJob(k, Some(job))), k);
            && k in started.store.jobs && started.store.jobs[k].owner == s.store.requests[k].uid
            && k in finished.store.requests
            && finished.store.requests[k].status == RequestStatus(k.name, outcome, s.store.requests[k].status.reviewName)
  {
    ApprovedRuns(s, k);
    StaysInOrder(s.store, BigStep(s, k).store, k);
    Finishes(BigStep(s, k), k, job, outcome);
  }

  /** From the review on. */
  lemma ReviewedFinishes(s: System, k: Key, rk: Key, job: Job, outcome: RequestState)
    requires Proceeds(s.store, k) && CouldApprove(s.store, k, rk) && s.store.requests[k].status.state == Pending
    requires k !in s.store.jobs && Reports(job.conditions, outcome)
    ensures var started := BigStep(BigReview(s, rk), k);
            var finished := BigStep(Step(started, SetJob(k, Some(job))), k);
            && k in started.store.jobs && started.store.jobs[k].owner == s.store.requests[k].uid
            && k in finished.store.requests && finished.store.requests[k].status == RequestStatus(k.name, outcome, rk.name)
  {
    ApprovesPending(s, k, rk);
    StaysInOrder(s.store, BigReview(s, rk).store, k);
    ApprovedFinishes(BigReview(s, rk), k, job, outcome);
  }

  /** The undisturbed way: a new request in order is made Pending, another user's review approves
      it, its Job is created for it and, once that reports an outcome, the request shows it and names
      both. Each reconcile is the big step of an undisturbed one. */
  lemma FromRequestToResult(s: System, k: Key, rk: Key, reviewedBy: Option<string>, job: Job, outcome: RequestState)
    requires Proceeds(s.store, k) && s.store.requests[k].status.state == Unset
    requires ReviewsOf(s.store, k) == {} && rk !in s.store.reviews && k !in s.store.jobs
    requires rk.namespace == k.namespace && DifferentPeople(s.store.requests[k].requestedBy, reviewedBy) && s.store.ttl > 0
    requires Reports(job.conditions, outcome)
    ensures var pending := BigStep(s, k);
            var started := BigStep(BigReview(Step(pending, CreateReview(rk, reviewedBy, k.name, Approve)), rk), k);
            var finished := BigStep(Step(started, SetJob(k, Some(job))), k);
            && k in started.store.jobs && started.store.jobs[k].owner == s.store.requests[k].uid
            && k in finished.store.requests && finished.store.requests[k].status == RequestStatus(k.name, outcome, rk.name)
  {
    BecomesPending(s, k);
    ReviewIsFiled(BigStep(s, k), k, rk, reviewedBy);
    ReviewedFinishes(Step(BigStep(s, k), CreateReview(rk, reviewedBy, k.name, Approve)), k, rk, job, outcome);
  }
}
