/** The ways in which a rejected request comes to be run after all, or a request that was run is run
    again. Each breaks one assumption under which it cannot: a list of its reviews fails, its decider
    is deleted while the request is young, or the decider was deleted before it decided. And what is
    behind every revival, in any run. */
module Revival {
  import opened Api
  import opened UserIdentity
  import opened Protocol
  import opened History
  import opened Invariant
  import opened Decisions
  import opened Forms
  import opened Sequential
  import opened Progress
  import P = Pruning
  import R = Recovery

  /** A Job was created for an incarnation rejected before. */
  predicate Revived(log: seq<Event>, k: Key, uid: nat) {
    exists i, j | 0 <= i < j < |log| :: P.Rejects(log[i], k, uid) && P.MakesJob(log[j], k, uid)
  }

  /** A rejected request was rejected by a decision in the log. */
  lemma RejectedIsLogged(s: System, k: Key)
    requires Inv(s) && k in s.store.requests && s.store.requests[k].status.state == Rejected
    ensures P.EverRejected(s.log, k, s.store.requests[k].uid)
  {
    StatusTellsHistory(s.log, k);
    var j := LastDecisionIsEvent(s.log, k, s.store.requests[k].uid);
    AllowedAt(s.log, j);
    assert P.Rejects(s.log[j], k, s.store.requests[k].uid);
  }

  /** What log `before` says of the incarnation is undone in log `now`: if it was rejected it has a
      Job, and if it had a Job it has two. */
  predicate Undone(before: seq<Event>, now: seq<Event>, k: Key, uid: nat) {
    && (P.EverRejected(before, k, uid) ==> Revived(now, k, uid))
    && (P.EverMade(before, k, uid) ==> R.Repeated(now, k, uid))
  }

  lemma LaterJobUndoes(before: seq<Event>, now: seq<Event>, j: nat, k: Key, uid: nat)
    requires before <= now && |before| <= j < |now| && P.MakesJob(now[j], k, uid)
    ensures Undone(before, now, k, uid)
  {
    if P.EverRejected(before, k, uid) {
      var i :| 0 <= i < |before| && P.Rejects(before[i], k, uid);
      assert now[i] == before[i];
    }
    if P.EverMade(before, k, uid) {
      var i :| 0 <= i < |before| && P.MakesJob(before[i], k, uid);
      assert now[i] == before[i];
    }
  }

  /** Back in Pending, with a review by somebody else that approves. */
  lemma PendingIsUndone(s: System, k: Key, rk: Key, before: seq<Event>)
    requires Proceeds(s.store, k) && CouldApprove(s.store, k, rk) && s.store.requests[k].status.state == Pending
    requires k !in s.store.jobs && before <= s.log
    ensures Undone(before, BigStep(BigReview(s, rk), k).log, k, s.store.requests[k].uid)
  {
    ApprovesPending(s, k, rk);
    StaysInOrder(s.store, BigReview(s, rk).store, k);
    ApprovedRuns(BigReview(s, rk), k);
    LaterJobUndoes(before, BigStep(BigReview(s, rk), k).log, |BigReview(s, rk).log|, k, s.store.requests[k].uid);
  }

  /** Listing must work: from every state with a decided request in order and no Job, one failed list is
      enough for another review to approve it and for a Job to be created, though it was rejected, or
      had its Job before. */
  lemma FailedListRevives(s: System, k: Key, rk: Key)
    requires Inv(s) && Proceeds(s.store, k) && s.store.requests[k].HasBeenReviewed() && k !in s.store.jobs
    requires k in s.requestTasks && s.requestTasks[k].FindingReviews? && s.requestTasks[k].jr == s.store.requests[k]
    requires CouldApprove(s.store, k, rk)
    ensures var pending := Step(Step(s, StepRequest(k, Fails)), StepRequest(k, Ok));
            var end, uid := BigStep(BigReview(pending, rk), k), s.store.requests[k].uid;
            && (s.store.requests[k].HasBeenRejected() ==> Revived(end.log, k, uid))
            && (P.EverMade(s.log, k, uid) ==> R.Repeated(end.log, k, uid))
  {
    var pending := Step(Step(s, StepRequest(k, Fails)), StepRequest(k, Ok));
    if s.store.requests[k].HasBeenRejected() {
      RejectedIsLogged(s, k);
    }
    FallsBack(s, k, s.requestTasks[k].jr, s.requestTasks[k].job);
    BackInPending(s, pending, k, rk);
    PendingIsUndone(pending, k, rk, s.log);
  }

  lemma BackInPending(s: System, pending: System, k: Key, rk: Key)
    requires Proceeds(s.store, k) && CouldApprove(s.store, k, rk)
    requires pending.store == PutState(s, k, Pending).store && pending.log == PutState(s, k, Pending).log
    ensures Proceeds(pending.store, k) && CouldApprove(pending.store, k, rk) && pending.store.jobs == s.store.jobs
    ensures pending.store.requests[k].uid == s.store.requests[k].uid && pending.store.requests[k].status.state == Pending
    ensures s.log <= pending.log
  {
    PutStatusKeeps(s, k, s.store.requests[k].status.(state := Pending));
    LogGoesOn(s, k, s.store.requests[k].status.(state := Pending));
  }

  /** A decided request in order that lists no review goes back to Pending before its time, and the
      next review by somebody else has it run. */
  lemma UnlistedIsUndone(s: System, k: Key, rk: Key, reviewedBy: Option<string>, before: seq<Event>)
    requires Proceeds(s.store, k) && s.store.requests[k].HasBeenReviewed() && ReviewsOf(s.store, k) == {}
    requires k !in s.store.jobs && before <= s.log
    requires rk !in s.store.reviews && rk.namespace == k.namespace && s.store.ttl > 0
    requires DifferentPeople(s.store.requests[k].requestedBy, reviewedBy)
    ensures var reviewed := Step(BigStep(s, k), CreateReview(rk, reviewedBy, k.name, Approve));
            Undone(before, BigStep(BigReview(reviewed, rk), k).log, k, s.store.requests[k].uid)
  {
    var pending := BigStep(s, k);
    PutStatusKeeps(s, k, s.store.requests[k].status.(state := Pending));
    LogGoesOn(s, k, s.store.requests[k].status.(state := Pending));
    StaysInOrder(s.store, pending.store, k);
    ReviewIsFiled(pending, k, rk, reviewedBy);
    PendingIsUndone(Step(pending, CreateReview(rk, reviewedBy, k.name, Approve)), k, rk, before);
  }

  /* ---------- a decider deleted while the request is young ---------- */

  /** A review that is stored is deleted exactly when the form its reconcile began from is past its
      lifetime, however young the stored one. */
  lemma PrunesExactly(s: System, rk: Key, v: Review)
    requires IdleReview(s, rk) && v in SeenOf(s.store.seen, rk) && rk in s.store.reviews
    ensures rk !in ReviewFrom(s, rk, Some(v)).store.reviews <==> Expired(s.store, v.created)
  {
    ReviewFromIsBig(s, rk, v);
    if !Expired(s.store, v.created) && Deserved(s.store, rk, v).Some? {
      VerdictKeepsReview(s, rk, v, Deserved(s.store, rk, v).value);
    }
  }

  lemma VerdictKeepsReview(s: System, rk: Key, v: Review, to: ReviewState)
    requires rk in s.store.reviews
    ensures rk in PutVerdict(if Decides(s.store, rk, v) then Commit(s, rk, v) else s, rk, v, to).store.reviews
  {
  }

  /** So it is deleted before its time by nothing but a form of an incarnation before it. */
  lemma EarlyPruneIsStale(s: System, rk: Key, v: Review)
    requires Inv(s) && Ordered(s.store)
    requires IdleReview(s, rk) && v in SeenOf(s.store.seen, rk) && rk in s.store.reviews
    requires rk !in ReviewFrom(s, rk, Some(v)).store.reviews && !Expired(s.store, s.store.reviews[rk].created)
    ensures v.version < s.store.reviews[rk].uid
  {
    PrunesExactly(s, rk, v);
    if s.store.reviews[rk].uid <= v.version {
      LaterIsStored(s.store, s.log, rk, v);
    }
  }

  lemma DeletedIsGone(s: System, rk: Key)
    ensures var st, s' := s.store, DeleteReview(s, rk);
            s'.store == st.(reviews := s'.store.reviews) && s'.store.reviews == st.reviews - {rk} && s.log <= s'.log
  {
  }

  lemma DeletedIsUnlisted(s: System, rk: Key, k: Key)
    requires Proceeds(s.store, k)
    ensures var st, st' := s.store, DeleteReview(s, rk).store;
            && ReviewsOf(st', k) == ReviewsOf(st, k) - {rk}
            && Proceeds(st', k) && st' == st.(reviews := st'.reviews) && st'.reviews == st.reviews - {rk}
            && s.log <= DeleteReview(s, rk).log
  {
    DeletedIsGone(s, rk);
    OneUnlisted(s.store, DeleteReview(s, rk).store, rk, k);
    StaysInOrder(s.store, DeleteReview(s, rk).store, k);
  }

  lemma OneUnlisted(st: Store, st': Store, rk: Key, k: Key)
    requires st' == st.(reviews := st'.reviews) && st'.reviews == st.reviews - {rk}
    ensures ReviewsOf(st', k) == ReviewsOf(st, k) - {rk}
  {
  }

  /** Nothing that request `k` or its list of reviews depends on is changed. */
  predicate SameList(st: Store, st': Store, k: Key) {
    && Stored(st'.requests, k) == Stored(st.requests, k) && ReviewsOf(st', k) == ReviewsOf(st, k)
    && st'.clock == st.clock && st'.ttl == st.ttl && st'.deployments == st.deployments
  }

  lemma CommitSparesDecided(s: System, k: Key, rk: Key, v: Review)
    requires Decides(s.store, rk, v) && k in s.store.requests && s.store.requests[k].HasBeenReviewed()
    ensures SameList(s.store, Commit(s, rk, v).store, k)
  {
  }

  lemma VerdictSparesList(s: System, k: Key, rk: Key, v: Review, to: ReviewState)
    ensures SameList(s.store, PutVerdict(s, rk, v, to).store, k)
  {
    if rk in s.store.reviews {
      PutStateKeeps(s, rk, to);
    }
  }

  lemma YoungSparesList(s: System, k: Key, rk: Key, v: Review)
    requires !Expired(s.store, v.created) && k in s.store.requests && s.store.requests[k].HasBeenReviewed()
    ensures SameList(s.store, BigReviewFrom(s, rk, v).store, k)
  {
    if Deserved(s.store, rk, v).Some? {
      var to := Deserved(s.store, rk, v).value;
      if Decides(s.store, rk, v) {
        CommitSparesDecided(s, k, rk, v);
        VerdictSparesList(Commit(s, rk, v), k, rk, v, to);
      } else {
        VerdictSparesList(s, k, rk, v, to);
      }
    }
  }

  lemma ListAfterReview(s: System, k: Key, rk: Key, v: Review)
    requires Proceeds(s.store, k) && s.store.requests[k].HasBeenReviewed()
    ensures var st, st' := s.store, BigReviewFrom(s, rk, v).store;
            && Proceeds(st', k) && st'.requests[k] == st.requests[k]
            && ReviewsOf(st', k) == ReviewsOf(st, k) - if Expired(st, v.created) then {rk} else {}
  {
    if Expired(s.store, v.created) {
      DeletedIsUnlisted(s, rk, k);
    } else {
      YoungSparesList(s, k, rk, v);
      StaysInOrder(s.store, BigReviewFrom(s, rk, v).store, k);
    }
  }

  lemma ListedOrPending(s: System, k: Key)
    requires Proceeds(s.store, k) && s.store.requests[k].HasBeenReviewed()
    ensures var s' := BigStep(s, k);
            k in s'.store.requests && (s'.store.requests[k].status.state == Pending <==> ReviewsOf(s.store, k) == {})
  {
    if ReviewsOf(s.store, k) != {} {
      DecidedNeverPending(s, k);
    }
  }

  lemma NoneLeft(listed: set<Key>, rk: Key)
    ensures listed - {rk} == {} <==> listed == {} || listed == {rk}
  {
    assert rk in listed && listed - {rk} == {} ==> listed == {rk};
  }

  /** After a reconcile of a review, from whatever form the cache serves, a decided request in order goes
      back to Pending exactly when it lists no review, or only that one and the form is past its
      lifetime. */
  lemma PrunedDeciderExactly(s: System, k: Key, rk: Key, v: Review)
    requires IdleReview(s, rk) && v in SeenOf(s.store.seen, rk)
    requires Proceeds(s.store, k) && s.store.requests[k].HasBeenReviewed()
    ensures var s' := BigStep(ReviewFrom(s, rk, Some(v)), k);
            && k in s'.store.requests
            && (s'.store.requests[k].status.state == Pending <==>
                  ReviewsOf(s.store, k) == {} || (Expired(s.store, v.created) && ReviewsOf(s.store, k) == {rk}))
  {
    ReviewFromIsBig(s, rk, v);
    ListAfterReview(s, k, rk, v);
    ListedOrPending(BigReviewFrom(s, rk, v), k);
    NoneLeft(ReviewsOf(s.store, k), rk);
  }

  lemma StartedNeverPending(s: System, k: Key)
    requires Proceeds(s.store, k) && s.store.requests[k].status.state == Started && k in s.store.jobs
    ensures var s' := PutStates(s, k, FinalStates(s.store.jobs[k].conditions));
            k in s'.store.requests && s'.store.requests[k].status.state != Pending
  {
    var states := FinalStates(s.store.jobs[k].conditions);
    FinalStatesAreFinal(s.store.jobs[k].conditions);
    PutStatesEnds(s, k, states);
  }

  lemma ApprovedNeverPending(s: System, k: Key)
    requires Proceeds(s.store, k) && s.store.requests[k].status.state == Approved
    ensures var s' := Decided(s, k); k in s'.store.requests && s'.store.requests[k].status.state != Pending
  {
    var jr := s.store.requests[k];
    if k in s.store.jobs {
      PutStatusKeeps(s, k, jr.status.(state := Conflicted));
    } else {
      var job := JobFor(s.store.deployments[DeploymentKey(k, jr)], jr);
      PutStatusKeeps(MakeJob(s, k, jr, job), k, jr.status.(state := Started, jobName := k.name));
    }
  }

  lemma DecidedNeverPending(s: System, k: Key)
    requires Proceeds(s.store, k) && s.store.requests[k].HasBeenReviewed()
    ensures var s' := Decided(s, k); k in s'.store.requests && s'.store.requests[k].status.state != Pending
  {
    var jr := s.store.requests[k];
    if jr.status.state == Approved {
      ApprovedNeverPending(s, k);
    } else if jr.status.state == Started {
      if k in s.store.jobs {
        StartedNeverPending(s, k);
      } else {
        PutStatusKeeps(s, k, jr.status.(state := Malformed));
      }
    }
  }

  /** The cache must not go back behind a decider: from every state in which a form of the name past
      its lifetime may still be served, a decided request in order and without a Job, whose only listed
      review has that name, is run in the end, though it was rejected, or had its Job before. That form
      may be of a review deleted long ago, whose successor under the name, however young, is the
      decider; or of a decider older than the request. */
  lemma PrunedDeciderRevives(s: System, k: Key, rk: Key, v: Review, next: Key, reviewedBy: Option<string>)
    requires Inv(s) && IdleReview(s, rk) && v in SeenOf(s.store.seen, rk) && Expired(s.store, v.created)
    requires Proceeds(s.store, k) && s.store.requests[k].HasBeenReviewed() && ReviewsOf(s.store, k) == {rk}
    requires k !in s.store.jobs
    requires next !in s.store.reviews && next.namespace == k.namespace && s.store.ttl > 0
    requires DifferentPeople(s.store.requests[k].requestedBy, reviewedBy)
    ensures var pending := BigStep(ReviewFrom(s, rk, Some(v)), k);
            var reviewed := Step(pending, CreateReview(next, reviewedBy, k.name, Approve));
            var end, uid := BigStep(BigReview(reviewed, next), k), s.store.requests[k].uid;
            && (s.store.requests[k].HasBeenRejected() ==> Revived(end.log, k, uid))
            && (P.EverMade(s.log, k, uid) ==> R.Repeated(end.log, k, uid))
  {
    if s.store.requests[k].HasBeenRejected() {
      RejectedIsLogged(s, k);
    }
    PrunedIsUndone(s, k, rk, v, next, reviewedBy);
  }

  lemma PrunedIsUndone(s: System, k: Key, rk: Key, v: Review, next: Key, reviewedBy: Option<string>)
    requires IdleReview(s, rk) && v in SeenOf(s.store.seen, rk) && Expired(s.store, v.created)
    requires Proceeds(s.store, k) && s.store.requests[k].HasBeenReviewed() && ReviewsOf(s.store, k) == {rk}
    requires k !in s.store.jobs
    requires next !in s.store.reviews && next.namespace == k.namespace && s.store.ttl > 0
    requires DifferentPeople(s.store.requests[k].requestedBy, reviewedBy)
    ensures var pending := BigStep(ReviewFrom(s, rk, Some(v)), k);
            var reviewed := Step(pending, CreateReview(next, reviewedBy, k.name, Approve));
            Undone(s.log, BigStep(BigReview(reviewed, next), k).log, k, s.store.requests[k].uid)
  {
    ReviewFromIsBig(s, rk, v);
    DeletedIsUnlisted(s, rk, k);
    UnlistedIsUndone(DeleteReview(s, rk), k, next, reviewedBy, s.log);
  }

  /* ---------- a decider deleted before it decided ---------- */

  /** The form is young, undecided and decides. */
  predicate WouldDecide(st: Store, rk: Key, v: Review) {
    !Expired(st, v.created) && v.state == Undecided && Decides(st, rk, v)
  }

  lemma BigReviewDecides(s: System, rk: Key, v: Review)
    ensures BigReviewFrom(s, rk, v).store.requests ==
              if WouldDecide(s.store, rk, v) then Commit(s, rk, v).store.requests else s.store.requests
  {
    if Decides(s.store, rk, v) {
      VerdictKeepsRequests(Commit(s, rk, v), rk, v, v.decision.AsReviewState());
    } else if Deserved(s.store, rk, v).Some? {
      VerdictKeepsRequests(s, rk, v, Deserved(s.store, rk, v).value);
    }
  }

  /** A review reconcile changes a request exactly when the form it began from is young, undecided and
      decides it, and then as that decision does: whether the review is still stored makes no
      difference. */
  lemma DecidesExactly(s: System, rk: Key, v: Review)
    requires IdleReview(s, rk) && v in SeenOf(s.store.seen, rk)
    ensures var m, m' := s.store.requests, ReviewFrom(s, rk, Some(v)).store.requests;
            && (m' != m <==> !Expired(s.store, v.created) && v.state == Undecided && Decides(s.store, rk, v))
            && (m' != m ==> m' == Commit(s, rk, v).store.requests)
  {
    ReviewFromIsBig(s, rk, v);
    BigReviewDecides(s, rk, v);
    if Decides(s.store, rk, v) {
      CommitChanges(s, rk, v);
    }
  }

  lemma CommitChanges(s: System, rk: Key, v: Review)
    requires Decides(s.store, rk, v)
    ensures Commit(s, rk, v).store.requests != s.store.requests
  {
    assert Commit(s, rk, v).store.requests[Target(rk, v)].status.state != Pending;
  }

  lemma VerdictKeepsRequests(s: System, rk: Key, v: Review, to: ReviewState)
    ensures PutVerdict(s, rk, v, to).store.requests == s.store.requests
  {
  }

  /** One that is no longer stored decides, and that is all it does. */
  lemma GhostDecides(s: System, rk: Key, v: Review)
    requires IdleReview(s, rk) && v in SeenOf(s.store.seen, rk) && rk !in s.store.reviews
    requires v.state == Undecided && !Expired(s.store, v.created) && Decides(s.store, rk, v)
    ensures ReviewFrom(s, rk, Some(v)) == Commit(s, rk, v)
  {
    ReviewFromIsBig(s, rk, v);
    assert rk !in Commit(s, rk, v).store.reviews;
  }

  lemma CommitStands(s: System, k: Key, rk: Key, v: Review)
    requires Proceeds(s.store, k) && Target(rk, v) == k && Decides(s.store, rk, v)
    ensures var st, s' := s.store, Commit(s, rk, v);
            && Proceeds(s'.store, k) && s'.store.requests[k].status.state == v.decision.AsRequestState()
            && SameRequest(s'.store.requests[k], st.requests[k]) && s'.reviewTasks == s.reviewTasks
            && s'.store == st.(requests := s'.store.requests, requestRev := s'.store.requestRev)
  {
  }

  lemma CommitRejects(s: System, k: Key, rk: Key, v: Review)
    requires Target(rk, v) == k && Decides(s.store, rk, v) && v.decision == Reject
    ensures P.EverRejected(Commit(s, rk, v).log, k, s.store.requests[k].uid)
  {
    var s' := Commit(s, rk, v);
    assert s'.log == s.log + [Last(s'.log)] && P.Rejects(Last(s'.log), k, s.store.requests[k].uid);
    assert Last(s'.log) in s'.log;
  }

  /** Nor may a review decide that is already deleted: even if the cache never goes back, one that
      was pruned before it was first served rejects a request and leaves it unlisted. */
  lemma GhostDeciderRevives(s: System, k: Key, rk: Key, v: Review, next: Key, reviewedBy: Option<string>)
    requires IdleReview(s, rk) && v in SeenOf(s.store.seen, rk) && rk !in s.store.reviews
    requires v.state == Undecided && !Expired(s.store, v.created) && Target(rk, v) == k && v.decision == Reject
    requires Proceeds(s.store, k) && Decides(s.store, rk, v) && ReviewsOf(s.store, k) == {} && k !in s.store.jobs
    requires next !in s.store.reviews && next.namespace == k.namespace && s.store.ttl > 0
    requires DifferentPeople(s.store.requests[k].requestedBy, reviewedBy)
    ensures var pending := BigStep(ReviewFrom(s, rk, Some(v)), k);
            var reviewed := Step(pending, CreateReview(next, reviewedBy, k.name, Approve));
            Revived(BigStep(BigReview(reviewed, next), k).log, k, s.store.requests[k].uid)
  {
    GhostDecides(s, rk, v);
    CommitStands(s, k, rk, v);
    CommitRejects(s, k, rk, v);
    UnlistedIsUndone(Commit(s, rk, v), k, next, reviewedBy, Commit(s, rk, v).log);
  }

  /** The Job of an Approved request is created and then removed. */
  lemma RunsAndIsGone(s: System, k: Key)
    requires Proceeds(s.store, k) && s.store.requests[k].status.state == Approved && ReviewsOf(s.store, k) != {}
    requires k !in s.store.jobs
    ensures var st, s' := s.store, Step(BigStep(s, k), SetJob(k, None));
            var st' := s'.store;
            && Proceeds(st', k) && SameRequest(st'.requests[k], st.requests[k]) && st'.requests[k].status.state == Started
            && st'.reviews == st.reviews && ReviewsOf(st', k) == ReviewsOf(st, k) && st'.seen == st.seen
            && st'.clock == st.clock && st'.ttl == st.ttl && k !in st'.jobs
            && s'.reviewTasks == s.reviewTasks && P.EverMade(s'.log, k, st.requests[k].uid)
  {
    var s' := Step(BigStep(s, k), SetJob(k, None));
    ApprovedRuns(s, k);
    StaysInOrder(s.store, s'.store, k);
    assert P.MakesJob(s'.log[|s.log|], k, s.store.requests[k].uid);
  }

  /** Likewise for approvals: after one by a deleted review the Job runs on the strength of another that
      is listed and may well be due, and once both Job and review are gone a second Job follows. */
  lemma GhostApproverRepeats(s: System, k: Key, rk: Key, v: Review, due: Key, next: Key, reviewedBy: Option<string>)
    requires IdleReview(s, rk) && v in SeenOf(s.store.seen, rk) && rk !in s.store.reviews
    requires v.state == Undecided && !Expired(s.store, v.created) && Target(rk, v) == k && v.decision == Approve
    requires Proceeds(s.store, k) && Decides(s.store, rk, v) && ReviewsOf(s.store, k) == {due} && k !in s.store.jobs
    requires IdleReview(s, due) && Cached(s.store, due) && due in s.store.reviews && Expired(s.store, s.store.reviews[due].created)
    requires next !in s.store.reviews && next.namespace == k.namespace && s.store.ttl > 0
    requires DifferentPeople(s.store.requests[k].requestedBy, reviewedBy)
    ensures var gone := Step(BigStep(ReviewFrom(s, rk, Some(v)), k), SetJob(k, None));
            var pending := BigStep(WholeReview(gone, due), k);
            var reviewed := Step(pending, CreateReview(next, reviewedBy, k.name, Approve));
            R.Repeated(BigStep(BigReview(reviewed, next), k).log, k, s.store.requests[k].uid)
  {
    GhostDecides(s, rk, v);
    CommitStands(s, k, rk, v);
    var approved := Commit(s, rk, v);
    assert ReviewsOf(approved.store, k) == ReviewsOf(s.store, k);
    RunsAndIsGone(approved, k);
    PrunedIsUndone(Step(BigStep(approved, k), SetJob(k, None)), k, due, s.store.reviews[due], next, reviewedBy);
  }

  /* ---------- what is behind a revival, in any run ---------- */

  /** The operator sends the decided incarnation back to Pending. */
  predicate Returned(e: Event, k: Key, uid: nat) {
    ReturnsToPending(e, k, uid) && e.before.HasBeenReviewed()
  }

  /** The incarnation, if stored, is this Rejected request, or Malformed. */
  predicate RejectedOrMalformed(now: Option<JobRequest>, jr: JobRequest, uid: nat) {
    now.Some? && now.value.uid == uid ==> now.value.status.state == Malformed || (now.value == jr && jr.HasBeenRejected())
  }

  lemma RejectedStep(log: seq<Event>, e: Event, k: Key, uid: nat, jr: JobRequest)
    requires Allowed(log, e) && RejectedOrMalformed(Stored(Requests(log), k), jr, uid)
    requires !(ReturnsToPending(e, k, uid) && e.before == jr)
    requires exists x | x in log :: P.Rejects(x, k, uid)
    ensures RejectedOrMalformed(Stored(ApplyToRequests(Requests(log), e), k), jr, uid)
  {
  }

  /** A rejected request stays as it was rejected, or becomes Malformed, until it is sent back as it
      was. */
  lemma {:induction false} StaysRejected(log: seq<Event>, i: nat, k: Key, uid: nat)
    requires Atomic(log) && i < |log| && P.Rejects(log[i], k, uid)
    requires forall m | i < m < |log| :: !(ReturnsToPending(log[m], k, uid) && log[m].before == log[i].after)
    ensures RejectedOrMalformed(Stored(Requests(log), k), log[i].after, uid)
  {
    if i < |log| - 1 {
      StaysRejected(Init(log), i, k, uid);
      assert log[i] in Init(log);
      RejectedStep(Init(log), Last(log), k, uid, log[i].after);
    }
  }

  lemma DecidesPending(log: seq<Event>, n: nat)
    requires Atomic(log) && n < |log| && log[n].RequestWritten? && log[n].decider.Some?
    ensures Stored(Requests(log[..n]), log[n].key) == Some(log[n].before) && log[n].before.status.state == Pending
  {
    AllowedAt(log, n);
  }

  /** A decision after a rejection comes after a return of the very request that was rejected. */
  lemma RejectedIsReturned(log: seq<Event>, i: nat, n: nat, k: Key, uid: nat) returns (m: nat)
    requires Atomic(log) && i < n < |log| && P.Rejects(log[i], k, uid) && IsDecision(log[n], k, uid)
    ensures i < m < n && ReturnsToPending(log[m], k, uid) && log[m].before == log[i].after
  {
    DecidesPending(log, n);
    if forall x | i < x < n :: !(ReturnsToPending(log[x], k, uid) && log[x].before == log[i].after) {
      AllowedAt(log, n);
      StaysRejected(log[..n], i, k, uid);
      assert false;
    }
    m :| i < m < n && ReturnsToPending(log[m], k, uid) && log[m].before == log[i].after;
  }

  /** In every history a Job for an incarnation rejected before comes after its return to Pending, as it
      was rejected, and a new approval. */
  lemma RevivalNeedsReturn(log: seq<Event>, i: nat, j: nat, k: Key, uid: nat) returns (m: nat, n: nat)
    requires Atomic(log) && i < j < |log| && P.Rejects(log[i], k, uid) && P.MakesJob(log[j], k, uid)
    ensures i < m < n < j && Approval(log, n, k, uid)
    ensures ReturnsToPending(log[m], k, uid) && log[m].before == log[i].after
  {
    n := JobNeedsApproval(log, j);
    RejectionIsDecision(log, i, k, uid);
    ApprovedLater(log, i, n, j, k, uid);
    m := RejectedIsReturned(log, i, n, k, uid);
  }

  /** The last approval before a Job is not followed by the rejection. */
  lemma ApprovedLater(log: seq<Event>, i: nat, n: nat, j: nat, k: Key, uid: nat)
    requires i < j && n < j < |log| && Approval(log, n, k, uid) && P.Rejects(log[i], k, uid) && IsDecision(log[i], k, uid)
    requires forall m | n < m < j :: !IsDecision(log[m], k, uid)
    ensures i < n
  {
    assert i != n;
  }

  lemma RejectionIsDecision(log: seq<Event>, i: nat, k: Key, uid: nat)
    requires Atomic(log) && i < |log| && P.Rejects(log[i], k, uid)
    ensures IsDecision(log[i], k, uid)
  {
    AllowedAt(log, i);
    RejectingTransition(log[..i], k, log[i].before, log[i].after.status, log[i].decider);
  }

  lemma RejectingTransition(log: seq<Event>, k: Key, before: JobRequest, after: RequestStatus, decider: Option<Decider>)
    requires Transition(log, k, before, after, decider) && after.state == Rejected
    ensures decider.Some?
  {
  }

  predicate WritesOn(e: Event, k: Key, uid: nat) {
    e.RequestWritten? && e.key == k && e.before.uid == uid
  }

  /** The incarnation, if stored, is this Approved request, or shows that it was used. */
  predicate ApprovedOrUsed(now: Option<JobRequest>, jr: JobRequest, uid: nat) {
    now.Some? && now.value.uid == uid ==> P.Used(now.value) || (now.value == jr && jr.status.state == Approved)
  }

  lemma UsedStep(log: seq<Event>, e: Event, k: Key, uid: nat, jr: JobRequest)
    requires Allowed(log, e) && ApprovedOrUsed(Stored(Requests(log), k), jr, uid) && !Returned(e, k, uid)
    requires exists x | x in log :: P.MakesJob(x, k, uid)
    ensures ApprovedOrUsed(Stored(ApplyToRequests(Requests(log), e), k), jr, uid)
    ensures var now := Stored(ApplyToRequests(Requests(log), e), k);
            WritesOn(e, k, uid) ==> now.Some? && now.value.uid == uid && P.Used(now.value)
    ensures var was, now := Stored(Requests(log), k), Stored(ApplyToRequests(Requests(log), e), k);
            was.Some? && was.value.uid == uid && P.Used(was.value) && now.Some? && now.value.uid == uid ==> P.Used(now.value)
  {
  }

  /** Once it has a Job, an incarnation is as it was, or shows that it was used, until it is sent back. */
  lemma {:induction false} StaysUsed(log: seq<Event>, i: nat, k: Key, uid: nat)
    requires Atomic(log) && i < |log| && P.MakesJob(log[i], k, uid)
    requires forall m | i < m < |log| :: !Returned(log[m], k, uid)
    ensures ApprovedOrUsed(Stored(Requests(log), k), log[i].request, uid)
    ensures var now := Stored(Requests(log), k);
            now.Some? && now.value.uid == uid && !P.Used(now.value) ==> forall m | i < m < |log| :: !WritesOn(log[m], k, uid)
  {
    if i < |log| - 1 {
      StaysUsed(Init(log), i, k, uid);
      assert log[i] in Init(log);
      UsedStep(Init(log), Last(log), k, uid, log[i].request);
    }
  }

  lemma UnreturnedIsUnwritten(log: seq<Event>, i: nat, k: Key, uid: nat)
    requires Atomic(log) && i < |log| && P.MakesJob(log[i], k, uid)
    requires k in Requests(log) && Requests(log)[k].uid == uid && !P.Used(Requests(log)[k])
    requires forall m | i < m < |log| :: !Returned(log[m], k, uid)
    ensures forall m | i < m < |log| :: !WritesOn(log[m], k, uid)
  {
    StaysUsed(log, i, k, uid);
  }

  lemma JobIsForApproved(log: seq<Event>, j: nat)
    requires Atomic(log) && j < |log| && log[j].JobCreated?
    ensures Atomic(log[..j]) && Stored(Requests(log[..j]), log[j].key) == Some(log[j].request) && !P.Used(log[j].request)
  {
    AllowedAt(log, j);
  }

  /** In every history two Jobs for one incarnation have its return to Pending between them, or else
      nothing at all is written to it, so that the first is never shown. */
  lemma RepeatNeedsReturn(log: seq<Event>, i: nat, j: nat, k: Key, uid: nat)
    requires Atomic(log) && i < j < |log| && P.MakesJob(log[i], k, uid) && P.MakesJob(log[j], k, uid)
    ensures (exists m | i < m < j :: Returned(log[m], k, uid)) || forall m | i < m < j :: !WritesOn(log[m], k, uid)
  {
    JobIsForApproved(log, j);
    if forall m | i < m < j :: !Returned(log[m], k, uid) {
      var before := log[..j];
      assert forall m | 0 <= m < j :: before[m] == log[m];
      UnreturnedIsUnwritten(before, i, k, uid);
      forall m | i < m < j ensures !WritesOn(log[m], k, uid) {
        assert !WritesOn(before[m], k, uid);
      }
    }
  }

  /** The action at `p` lists the reviews of `k` for a reconcile that holds `jr`, and the list fails or is
      empty. */
  ghost predicate UnlistedAt(s: System, actions: seq<Action>, p: nat, k: Key, jr: JobRequest)
    requires p < |actions|
  {
    var t, a := Run(s, actions[..p]), actions[p];
    && a.StepRequest? && a.key == k && k in t.requestTasks && t.requestTasks[k].FindingReviews? && t.requestTasks[k].jr == jr
    && (a.outcome != Ok || ReviewsOf(t.store, k) == {})
  }

  ghost predicate EverUnlisted(s: System, actions: seq<Action>, k: Key, jr: JobRequest) {
    exists p: nat | p < |actions| :: UnlistedAt(s, actions, p, k, jr)
  }

  lemma UnlistedBefore(s: System, actions: seq<Action>, k: Key, jr: JobRequest)
    requires actions != [] && EverUnlisted(s, actions[..|actions| - 1], k, jr)
    ensures EverUnlisted(s, actions, k, jr)
  {
    var prefix := actions[..|actions| - 1];
    var p: nat :| p < |prefix| && UnlistedAt(s, prefix, p, k, jr);
    assert prefix[..p] == actions[..p];
    assert UnlistedAt(s, actions, p, k, jr);
  }

  /** A decided request about to be sent back. */
  predicate Returning(task: RequestTask) {
    task.Writing? && task.status.state == Pending && task.jr.HasBeenReviewed()
  }

  /** Every return of `k` so far, and one that is under way, goes back to such a list, made by a reconcile
      that held the request as it was when sent back. */
  ghost predicate Traced(s: System, actions: seq<Action>, k: Key) {
    var t := Run(s, actions);
    && (forall e | e in t.log && e.RequestWritten? && Returned(e, k, e.before.uid) :: EverUnlisted(s, actions, k, e.before))
    && (k in t.requestTasks && Returning(t.requestTasks[k]) ==> EverUnlisted(s, actions, k, t.requestTasks[k].jr))
  }

  lemma EffectReturns(t: System, k: Key, task: RequestTask, outcome: Outcome, e: Event)
    requires Recorded(t) && Holds(Stored(t.store.requests, k), k, task)
    requires e in RequestEffect(t, k, task, outcome).log && e.RequestWritten? && Returned(e, k, e.before.uid)
    ensures e in t.log || (Returning(task) && e.before == task.jr)
  {
    if task.Writing? && Fresh(t.store, k, task.jr) {
      UpdateIsTransition(t, k, task.jr, task.status, task.rest);
      if task.status != task.jr.status {
        PutStatusAdds(t, k, task.status, None);
      }
    }
  }

  /** A call of the reconcile of `k` that adds a return to the log sends what it holds. */
  lemma OwnReturnIsSent(t: System, k: Key, outcome: Outcome, e: Event)
    requires Inv(t) && k in t.requestTasks
    requires e in Step(t, StepRequest(k, outcome)).log && e.RequestWritten? && Returned(e, k, e.before.uid)
    ensures e in t.log || (Returning(t.requestTasks[k]) && e.before == t.requestTasks[k].jr)
  {
    assert Holds(Stored(t.store.requests, k), k, t.requestTasks[k]);
    EffectReturns(t, k, t.requestTasks[k], outcome, e);
  }

  /** One that turns to a return has listed the reviews in vain. */
  lemma OwnReturnIsListed(t: System, k: Key, outcome: Outcome)
    requires Inv(t) && k in t.requestTasks
    ensures var task, t' := t.requestTasks[k], Step(t, StepRequest(k, outcome));
            k in t'.requestTasks && Returning(t'.requestTasks[k]) ==>
              task.FindingReviews? && t'.requestTasks[k].jr == task.jr && (outcome != Ok || ReviewsOf(t.store, k) == {})
  {
    var task := t.requestTasks[k];
    assert Holds(Stored(t.store.requests, k), k, task);
    R.CallAfter(t, k, task, outcome);
    if task.FindingReviews? {
      ListedReviews(t, k, task.jr, task.job, outcome);
    } else {
      P.OnlyListingReturns(t, k, task, outcome);
    }
  }

  /** Nobody else sends `k` back, or leads its reconcile to do so. */
  lemma OthersReturnNothing(t: System, a: Action, k: Key)
    requires Inv(t) && !(a.StepRequest? && a.key == k)
    ensures var t' := Step(t, a);
            && (forall e | e in t'.log && e.RequestWritten? && Returned(e, k, e.before.uid) :: e in t.log)
            && (k in t'.requestTasks && Returning(t'.requestTasks[k]) ==> Stored(t.requestTasks, k) == Some(t'.requestTasks[k]))
  {
    P.OthersKeepTaskOf(t, a, k);
    if !P.Touches(t, a, k) {
      P.OthersLeaveAlone(t, a, k);
    } else if a.StepReview? {
      P.CommitDecides(t, a.key, a.outcome);
    }
  }

  lemma {:induction false} RunIsTraced(s: System, actions: seq<Action>, k: Key)
    requires Initial(s)
    ensures Traced(s, actions, k)
    decreases |actions|
  {
    if actions != [] {
      var prefix, a := actions[..|actions| - 1], actions[|actions| - 1];
      var t := Run(s, prefix);
      RunIsTraced(s, prefix, k);
      RunIsAtomic(s, prefix);
      forall jr | EverUnlisted(s, prefix, k, jr) ensures EverUnlisted(s, actions, k, jr) {
        UnlistedBefore(s, actions, k, jr);
      }
      if a.StepRequest? && a.key == k {
        if k in t.requestTasks {
          forall e | e in Step(t, a).log && e.RequestWritten? && Returned(e, k, e.before.uid)
            ensures e in t.log || (Returning(t.requestTasks[k]) && e.before == t.requestTasks[k].jr)
          {
            OwnReturnIsSent(t, k, a.outcome, e);
          }
          OwnReturnIsListed(t, k, a.outcome);
          if k in Step(t, a).requestTasks && Returning(Step(t, a).requestTasks[k]) {
            assert UnlistedAt(s, actions, |actions| - 1, k, t.requestTasks[k].jr);
          }
        }
      } else {
        OthersReturnNothing(t, a, k);
      }
    }
  }

  /** Behind every revival, in any run: a reconcile that held the request as it was rejected listed its
      reviews and the list failed or was empty; that very request was sent back to Pending; and a new
      approval followed. */
  lemma RevivalTraced(s: System, actions: seq<Action>, i: nat, j: nat, k: Key, uid: nat) returns (m: nat, n: nat, p: nat)
    requires Initial(s) && i < j < |Run(s, actions).log|
    requires P.Rejects(Run(s, actions).log[i], k, uid) && P.MakesJob(Run(s, actions).log[j], k, uid)
    ensures var log := Run(s, actions).log;
            && i < m < n < j && Approval(log, n, k, uid)
            && ReturnsToPending(log[m], k, uid) && log[m].before == log[i].after
            && p < |actions| && UnlistedAt(s, actions, p, k, log[i].after)
  {
    var log := Run(s, actions).log;
    RunIsAtomic(s, actions);
    m, n := RevivalNeedsReturn(log, i, j, k, uid);
    RunIsTraced(s, actions, k);
    assert log[m] in log && Returned(log[m], k, log[m].before.uid);
    p :| p < |actions| && UnlistedAt(s, actions, p, k, log[i].after);
  }

  /** And behind every second Job: such a list and return between the two, or no write to the request at
      all from the first to the second. */
  lemma RepeatTraced(s: System, actions: seq<Action>, i: nat, j: nat, k: Key, uid: nat)
    requires Initial(s) && i < j < |Run(s, actions).log|
    requires P.MakesJob(Run(s, actions).log[i], k, uid) && P.MakesJob(Run(s, actions).log[j], k, uid)
    ensures var log := Run(s, actions).log;
            || (exists m | i < m < j :: Returned(log[m], k, uid) && EverUnlisted(s, actions, k, log[m].before))
            || (forall m | i < m < j :: !WritesOn(log[m], k, uid))
  {
    var log := Run(s, actions).log;
    RunIsAtomic(s, actions);
    RepeatNeedsReturn(log, i, j, k, uid);
    RunIsTraced(s, actions, k);
    if m :| i < m < j && Returned(log[m], k, uid) {
      assert log[m] in log && Returned(log[m], k, log[m].before.uid);
    }
  }
}
