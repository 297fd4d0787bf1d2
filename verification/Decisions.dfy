/** What every run of the protocol keeps about decisions, Jobs and reviews, whatever calls fail,
    reconciles stop, or caches lag. The statements about logs hold for every atomic log; the
    theorems at the end carry them over to runs. */
module Decisions {
  import opened Api
  import opened UserIdentity
  import opened Protocol
  import opened History
  import opened Invariant

  /* ---------- the last decision ---------- */

  /** A decision on incarnation `uid` of request `k`. */
  predicate IsDecision(e: Event, k: Key, uid: nat) {
    e.RequestWritten? && e.key == k && e.before.uid == uid && e.decider.Some?
  }

  function LastDecision(log: seq<Event>, k: Key, uid: nat): Option<Decider> {
    if log == [] then None
    else if IsDecision(Last(log), k, uid) then Last(log).decider
    else LastDecision(Init(log), k, uid)
  }

  /** Decision `d` on `k`, made by somebody else than the requester. */
  predicate Made(d: Option<Decider>, k: Key, jr: JobRequest, decision: Decision) {
    && d.Some?
    && d.value.review.decision == decision
    && Target(d.value.key, d.value.review) == k
    && jr.WasReviewedBy(d.value.key.name)
    && DifferentPeople(jr.requestedBy, d.value.review.reviewedBy)
  }

  /** The status tells the truth about the log: approved and rejected requests were last decided
      so, by the review they name, and a request with a Job behind it names that Job. */
  predicate Told(log: seq<Event>, k: Key, jr: JobRequest) {
    && (jr.HasBeenApproved() ==> Made(LastDecision(log, k, jr.uid), k, jr, Approve))
    && (jr.HasBeenRejected() ==> Made(LastDecision(log, k, jr.uid), k, jr, Reject))
    && (InLoop(jr.status.state) ==> jr.status.jobName == k.name)
  }

  lemma WriteTold(before: seq<Event>, e: Event, k: Key)
    requires e.RequestWritten? && e.key == k && Allowed(before, e) && Told(before, k, e.before)
    ensures Told(before + [e], k, e.after)
  {
    Appended(before, e);
    assert LastDecision(before + [e], k, e.after.uid) == if e.decider.Some? then e.decider else LastDecision(before, k, e.before.uid);
  }

  lemma {:induction false} StatusTellsHistory(log: seq<Event>, k: Key)
    requires Atomic(log) && k in Requests(log)
    ensures Told(log, k, Requests(log)[k])
  {
    var before, e := Init(log), Last(log);
    if e.RequestWritten? && e.key == k {
      StatusTellsHistory(before, k);
      WriteTold(before, e, k);
      assert before + [e] == log;
    } else if !(e.RequestCreated? && e.key == k) {
      StatusTellsHistory(before, k);
    }
  }

  /* ---------- what has been decided and stands ---------- */

  /** The decision on the incarnation that stands: the last, if the request was not made Pending or
      Malformed since. */
  function Standing(log: seq<Event>, k: Key, uid: nat): Option<Decision> {
    if log == [] then None
    else
      var e := Last(log);
      if !e.RequestWritten? || e.key != k || e.before.uid != uid then Standing(Init(log), k, uid)
      else if e.decider.Some? then Some(e.decider.value.review.decision)
      else if e.after.status.state in {Pending, Malformed} then None
      else Standing(Init(log), k, uid)
  }

  predicate SaysStanding(standing: Option<Decision>, jr: JobRequest) {
    && !jr.status.state.Unlisted?
    && (jr.HasBeenReviewed() <==> standing.Some?)
    && (jr.HasBeenApproved() <==> standing == Some(Approve))
    && (jr.HasBeenRejected() <==> standing == Some(Reject))
  }

  lemma WriteStands(log: seq<Event>, e: Event, k: Key)
    requires Allowed(log, e) && e.RequestWritten? && e.key == k && SaysStanding(Standing(log, k, e.before.uid), e.before)
    ensures SaysStanding(Standing(log + [e], k, e.after.uid), e.after)
  {
    Appended(log, e);
  }

  lemma {:induction false} NothingStands(log: seq<Event>, k: Key, uid: nat)
    requires forall e | e in log && AboutRequest(e) && e.key == k :: Uid(e) != uid
    ensures Standing(log, k, uid) == None
  {
    if log != [] {
      assert Last(log) in log;
      NothingStands(Init(log), k, uid);
    }
  }

  /** In every history the stored request has been reviewed, approved or rejected, as it says of itself,
      exactly when a decision, an approval or a rejection stands. */
  lemma {:induction false} StandsExactly(log: seq<Event>, k: Key)
    requires Atomic(log) && k in Requests(log)
    ensures SaysStanding(Standing(log, k, Requests(log)[k].uid), Requests(log)[k])
  {
    var before, e := Init(log), Last(log);
    if e.RequestWritten? && e.key == k {
      StandsExactly(before, k);
      WriteStands(before, e, k);
      assert before + [e] == log;
    } else if e.RequestCreated? && e.key == k {
      NothingStands(before, k, e.request.uid);
    } else {
      StandsExactly(before, k);
    }
  }

  /** The last decision is an event of the log, and none follows it. */
  lemma {:induction false} LastDecisionIsEvent(log: seq<Event>, k: Key, uid: nat) returns (j: nat)
    requires LastDecision(log, k, uid).Some?
    ensures j < |log| && IsDecision(log[j], k, uid) && log[j].decider == LastDecision(log, k, uid)
    ensures forall m | j < m < |log| :: !IsDecision(log[m], k, uid)
  {
    if IsDecision(Last(log), k, uid) {
      j := |log| - 1;
    } else {
      j := LastDecisionIsEvent(Init(log), k, uid);
    }
  }

  /** An Approved decision on incarnation `uid` of `k`, by a review stored before, of somebody
      else than the requester. */
  ghost predicate Approval(log: seq<Event>, j: nat, k: Key, uid: nat)
    requires j < |log|
  {
    var e := log[j];
    && IsDecision(e, k, uid)
    && e.after.status.state == Approved
    && e.decider.value.review.decision == Approve
    && ReviewCreated(e.decider.value.key, e.decider.value.review) in log[..j]
    && DifferentPeople(e.before.requestedBy, e.decider.value.review.reviewedBy)
  }

  /** A Job is created for a request that is Approved as stored at that moment; the approval is
      in the log and no other decision on the incarnation comes between. */
  lemma JobNeedsApproval(log: seq<Event>, i: nat) returns (j: nat)
    requires Atomic(log) && i < |log| && log[i].JobCreated?
    ensures var jr := log[i].request;
            && Stored(Requests(log[..i]), log[i].key) == Some(jr) && jr.status.state == Approved
            && j < i && Approval(log, j, log[i].key, jr.uid)
            && forall m | j < m < i :: !IsDecision(log[m], log[i].key, jr.uid)
  {
    var k, jr := log[i].key, log[i].request;
    AllowedAt(log, i);
    StatusTellsHistory(log[..i], k);
    j := LastDecisionIsEvent(log[..i], k, jr.uid);
    assert log[..i][j] == log[j];
    AllowedAt(log, j);
    forall m | j < m < i ensures !IsDecision(log[m], k, jr.uid) {
      assert log[..i][m] == log[m];
    }
  }

  /** If that incarnation is stored it is this request. */
  predicate IsStill(m: map<Key, JobRequest>, k: Key, jr: JobRequest) {
    k in m && m[k].uid == jr.uid ==> SameRequest(m[k], jr)
  }

  lemma StillIs(log: seq<Event>, e: Event, k: Key, jr: JobRequest)
    requires Allowed(log, e) && IsStill(Requests(log), k, jr)
    requires exists x | x in log :: AboutRequest(x) && x.key == k && Uid(x) == jr.uid
    ensures IsStill(ApplyToRequests(Requests(log), e), k, jr)
  {
  }

  /** All writes to one incarnation are to the same request. */
  lemma {:induction false} SameIncarnation(log: seq<Event>, j: nat, n: nat)
    requires Atomic(log) && j < n <= |log| && log[j].RequestWritten?
    ensures IsStill(Requests(log[..n]), log[j].key, log[j].before)
    decreases n
  {
    AllowedAt(log, n - 1);
    assert Init(log[..n]) == log[..n - 1];
    if j < n - 1 {
      SameIncarnation(log, j, n - 1);
      assert log[..n - 1][j] == log[j];
      StillIs(log[..n - 1], log[n - 1], log[j].key, log[j].before);
    }
  }

  /** The update of the request that the call sends is applied. */
  predicate Accepted(st: Store, rk: Key, task: ReviewTask, outcome: Outcome) {
    task.Committing? && outcome != Fails && Fresh(st, Target(rk, task.rv), task.jr)
  }

  /* ---------- nobody decides on their own request ---------- */

  /** A review of a Pending request is set in conflict exactly when one user is named by both, under
      whichever roles, regions, accounts and sessions. */
  lemma SelfReviewConflicts(rv: Review, jr: JobRequest)
    ensures AfterPending(rv, jr) == WritingReview(rv, ReviewConflict)
            <==> exists user :: NamesUser(jr.requestedBy, user) && NamesUser(rv.reviewedBy, user)
  {
    IdentityExactly(jr.requestedBy);
    IdentityExactly(rv.reviewedBy);
    if user :| NamesUser(jr.requestedBy, user) && NamesUser(rv.reviewedBy, user) {
      UserExactly(jr.requestedBy, user);
      UserExactly(rv.reviewedBy, user);
    }
    if IdentityOf(jr.requestedBy).Some? && IdentityOf(rv.reviewedBy).Some? {
      UserExactly(jr.requestedBy, IdentityOf(jr.requestedBy).value.userName);
      UserExactly(rv.reviewedBy, IdentityOf(rv.reviewedBy).value.userName);
    }
  }

  /** It goes on to the decision exactly when they name two users. */
  lemma OthersDecide(rv: Review, jr: JobRequest)
    ensures AfterPending(rv, jr) == Committing(rv, jr) <==> TwoUsers(jr.requestedBy, rv.reviewedBy)
  {
    DifferentExactly(jr.requestedBy, rv.reviewedBy);
  }

  /** Whenever a decision was committed, requester and reviewer were two users. */
  lemma DecidersAreOthers(log: seq<Event>, i: nat)
    requires Atomic(log) && i < |log| && log[i].RequestWritten? && log[i].decider.Some?
    ensures TwoUsers(log[i].before.requestedBy, log[i].decider.value.review.reviewedBy)
  {
    AllowedAt(log, i);
    DifferentExactly(log[i].before.requestedBy, log[i].decider.value.review.reviewedBy);
  }

  /* ---------- one decision per stay in Pending ---------- */

  predicate ReturnsToPending(e: Event, k: Key, uid: nat) {
    e.RequestWritten? && e.key == k && e.before.uid == uid && e.after.status.state == Pending
  }

  /** The incarnation is not stored, or not Pending. */
  predicate NotPending(m: map<Key, JobRequest>, k: Key, uid: nat) {
    k in m && m[k].uid == uid ==> m[k].status.state != Pending
  }

  lemma StillNotPending(log: seq<Event>, e: Event, k: Key, uid: nat)
    requires Allowed(log, e) && NotPending(Requests(log), k, uid) && !ReturnsToPending(e, k, uid)
    requires exists x | x in log :: IsDecision(x, k, uid)
    ensures NotPending(ApplyToRequests(Requests(log), e), k, uid)
  {
  }

  /** Once decided, an incarnation is not Pending until it is written back to Pending. */
  lemma {:induction false} DecidedStaysDecided(log: seq<Event>, i: nat, n: nat, k: Key, uid: nat)
    requires Atomic(log) && i < n <= |log| && IsDecision(log[i], k, uid)
    requires forall m | i < m < n :: !ReturnsToPending(log[m], k, uid)
    ensures NotPending(Requests(log[..n]), k, uid)
    decreases n
  {
    AllowedAt(log, n - 1);
    assert Init(log[..n]) == log[..n - 1];
    if i < n - 1 {
      DecidedStaysDecided(log, i, n - 1, k, uid);
      assert log[..n - 1][i] == log[i];
      StillNotPending(log[..n - 1], log[n - 1], k, uid);
    }
  }

  lemma FirstDecisionWins(log: seq<Event>, i: nat, j: nat, k: Key, uid: nat)
    requires Atomic(log) && i < j < |log|
    requires IsDecision(log[i], k, uid) && IsDecision(log[j], k, uid)
    ensures exists m | i < m < j :: ReturnsToPending(log[m], k, uid)
  {
    AllowedAt(log, j);
    if forall m | i < m < j :: !ReturnsToPending(log[m], k, uid) {
      DecidedStaysDecided(log, i, j, k, uid);
    }
  }

  /* ---------- a review gets its verdict once ---------- */

  lemma {:induction false} VerdictStays(log: seq<Event>, i: nat, n: nat)
    requires Atomic(log) && i < n <= |log| && log[i].ReviewWritten?
    ensures var rk, uid := log[i].key, log[i].pending.uid;
            rk in Reviews(log[..n]) && Reviews(log[..n])[rk].uid == uid ==> Reviews(log[..n])[rk].state != Undecided
    decreases n
  {
    AllowedAt(log, n - 1);
    assert Init(log[..n]) == log[..n - 1];
    if i < n - 1 {
      VerdictStays(log, i, n - 1);
      assert log[..n - 1][i] == log[i];
      assert log[i] in log[..n - 1];
    }
  }

  /** A review goes from no state to one of the five verdicts, and no incarnation does so twice. */
  lemma VerdictOnce(log: seq<Event>, i: nat, j: nat)
    requires Atomic(log) && i < j < |log| && log[i].ReviewWritten? && log[j].ReviewWritten?
    requires log[i].key == log[j].key
    ensures log[i].pending.uid != log[j].pending.uid
    ensures log[j].pending.state == Undecided && Verdict(log[j].decided.state)
  {
    AllowedAt(log, j);
    VerdictStays(log, i, j);
  }

  /* ---------- runs ---------- */

  /** Every step of every party is at most one atomic transition from what is stored, and the log
      of transitions determines the store. */
  lemma StepRefinesAtomic(s: System, a: Action)
    requires Inv(s)
    ensures var s' := Step(s, a);
            && (s'.log == s.log || (s'.log != [] && Init(s'.log) == s.log && Allowed(s.log, Last(s'.log))))
            && s'.store.requests == Requests(s'.log) && s'.store.reviews == Reviews(s'.log)
  {
    StepKeepsInv(s, a);
    LogGrowsByOne(s, a);
  }

  lemma LogGrowsByOne(s: System, a: Action)
    ensures var s' := Step(s, a); s'.log == s.log || (s'.log != [] && Init(s'.log) == s.log)
  {
  }

  /** The log of a run from the start is atomic and determines what is stored. */
  lemma RunIsAtomic(s: System, actions: seq<Action>)
    requires Initial(s)
    ensures var s' := Run(s, actions);
            Inv(s') && Atomic(s'.log) && s'.store.requests == Requests(s'.log) && s'.store.reviews == Reviews(s'.log)
  {
    InitialInv(s);
    RunKeepsInv(s, actions);
  }

  /** The last decision on the stored request is by the review it names, and was `decision`. */
  predicate LastDecided(s: System, k: Key, decision: Decision)
    requires k in s.store.requests
  {
    var jr := s.store.requests[k];
    var d := LastDecision(s.log, k, jr.uid);
    && d.Some? && d.value.review.decision == decision && d.value.key.name == jr.status.reviewName
    && d.value.key.namespace == k.namespace && d.value.review.requestName == k.name
  }

  /** In every reachable state the status of every stored request tells the truth, state by state. */
  lemma RunTellsHistory(s: System, actions: seq<Action>, k: Key)
    requires Initial(s) && k in Run(s, actions).store.requests
    ensures Told(Run(s, actions).log, k, Run(s, actions).store.requests[k])
    ensures var now := Run(s, actions);
            var state := now.store.requests[k].status.state;
            && (state == Rejected ==> LastDecided(now, k, Reject))
            && (state in {Approved, Started, Complete, Failed, Conflicted} ==> LastDecided(now, k, Approve))
            && (state in {Started, Complete, Failed} ==> now.store.requests[k].status.jobName == k.name)
  {
    RunIsAtomic(s, actions);
    StatusTellsHistory(Run(s, actions).log, k);
  }

  /** No lost decision: an update to Pending made from a request nobody had decided on leaves a
      request decided since as it is. */
  lemma NoLostDecision(s: System, k: Key, outcome: Outcome)
    requires Inv(s) && k in s.requestTasks && s.requestTasks[k].Writing? && k in s.store.requests
    requires s.requestTasks[k].status.state == Pending && !s.requestTasks[k].jr.HasBeenReviewed()
    requires s.store.requests[k].HasBeenReviewed()
    ensures Step(s, StepRequest(k, outcome)).store == s.store
  {
    assert Holds(Stored(s.store.requests, k), k, s.requestTasks[k]);
  }

  /** A started request read again is as it was: nobody writes to it in between. */
  lemma RereadStillStarted(s: System, k: Key)
    requires Inv(s) && k in s.requestTasks && s.requestTasks[k].Rereading?
    ensures Stored(s.store.requests, k) == Some(s.requestTasks[k].jr) && s.requestTasks[k].jr.status.state == Started
  {
    assert Holds(Stored(s.store.requests, k), k, s.requestTasks[k]);
  }

  /** The two-person rule: whatever happens, each Job the operator creates is preceded by an
      approval of that incarnation, and the two annotations name two users. */
  lemma TwoPersonRule(s: System, actions: seq<Action>, i: nat)
    requires Initial(s) && i < |Run(s, actions).log| && Run(s, actions).log[i].JobCreated?
    ensures var log := Run(s, actions).log;
            exists j: nat | j < i :: Approval(log, j, log[i].key, log[i].request.uid)
                                     && TwoUsers(log[j].before.requestedBy, log[j].decider.value.review.reviewedBy)
  {
    RunIsAtomic(s, actions);
    var j := JobNeedsApproval(Run(s, actions).log, i);
    DecidersAreOthers(Run(s, actions).log, j);
  }

  /** From `m` to `m'` requests change only in that review `rk` decides its Pending target. */
  predicate OnlyDecides(m: map<Key, JobRequest>, m': map<Key, JobRequest>, log': seq<Event>, rk: Key, k: Key) {
    && k in m && m[k].status.state == Pending
    && k in m' && m'[k].WasReviewedBy(rk.name)
    && log' != [] && IsDecision(Last(log'), k, m[k].uid)
    && m' - {k} == m - {k}
  }

  lemma CommitOnlyDecides(s: System, rk: Key, rv: Review, jr: JobRequest)
    requires Recorded(s) && HoldsReview(s.store, rk, Committing(rv, jr)) && Fresh(s.store, Target(rk, rv), jr)
    ensures var s' := PutStatus(s, Target(rk, rv), DecidedStatus(rk, rv, jr), Some(Decider(rk, rv)));
            OnlyDecides(s.store.requests, s'.store.requests, s'.log, rk, Target(rk, rv))
  {
    DecisionIsTransition(s, rk, rv, jr);
    var k := Target(rk, rv);
    var s' := PutStatus(s, k, DecidedStatus(rk, rv, jr), Some(Decider(rk, rv)));
    assert s'.store.requests - {k} == s.store.requests - {k};
  }

  lemma ReviewEffectOnRequests(s: System, rk: Key, task: ReviewTask, outcome: Outcome)
    requires Recorded(s) && HoldsReview(s.store, rk, task)
    ensures var s' := ReviewEffect(s, rk, task, outcome);
            || s'.store.requests == s.store.requests
            || (task.Committing? && OnlyDecides(s.store.requests, s'.store.requests, s'.log, rk, Target(rk, task.rv)))
  {
    if task.Committing? && Fresh(s.store, Target(rk, task.rv), task.jr) {
      CommitOnlyDecides(s, rk, task.rv, task.jr);
    }
  }

  lemma StepIsEffect(s: System, rk: Key, outcome: Outcome)
    requires rk in s.reviewTasks
    ensures var s', e := Step(s, StepReview(rk, outcome)), ReviewEffect(s, rk, s.reviewTasks[rk], outcome);
            s'.store == e.store && s'.log == e.log
  {
  }

  /** A step of a review reconcile changes requests only by deciding a Pending one; any other
      leaves every request as it is, version and ReviewName included. */
  lemma LosingReviewsChangeNothing(s: System, rk: Key, outcome: Outcome)
    requires Inv(s)
    ensures var s' := Step(s, StepReview(rk, outcome));
            || s'.store.requests == s.store.requests
            || (rk in s.reviewTasks && s.reviewTasks[rk].Committing?
                && OnlyDecides(s.store.requests, s'.store.requests, s'.log, rk, Target(rk, s.reviewTasks[rk].rv)))
  {
    if rk in s.reviewTasks {
      ReviewEffectOnRequests(s, rk, s.reviewTasks[rk], outcome);
      StepIsEffect(s, rk, outcome);
    }
  }
}
