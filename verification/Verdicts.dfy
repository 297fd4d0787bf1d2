/** What the verdict of a review says about its request. A review says Approved or Rejected once it
    has sent its decision, whether or not that was applied; so its verdict stands for a decision in
    the history exactly when the update it sent was accepted. */
module Verdicts {
  import opened Api
  import opened UserIdentity
  import opened Protocol
  import opened History
  import opened Invariant
  import opened Decisions
  import opened Sequential
  import opened Schedule
  import P = Pruning

  /* ---------- one commit ---------- */

  /** The decision of `rv` is what was written to request `k` last, and what is stored. */
  predicate DecidedLast(s: System, k: Key, rk: Key, rv: Review, jr: JobRequest) {
    && k in s.store.requests && s.store.requests[k].status == DecidedStatus(rk, rv, jr)
    && s.log != [] && Last(s.log) == RequestWritten(k, jr, s.store.requests[k], Some(Decider(rk, rv)))
  }

  lemma CommitApplied(s: System, rk: Key, task: ReviewTask, outcome: Outcome)
    requires Recorded(s) && HoldsReview(s.store, rk, task) && Accepted(s.store, rk, task, outcome)
    ensures var s' := ReviewEffect(s, rk, task, outcome);
            DecidedLast(s', Target(rk, task.rv), rk, task.rv, task.jr) && |s'.log| == |s.log| + 1
            && s'.store.requests[Target(rk, task.rv)] != s.store.requests[Target(rk, task.rv)]
  {
    P.ReviewEffectLog(s, rk, task, outcome);
  }

  lemma CommitRefused(s: System, rk: Key, task: ReviewTask, outcome: Outcome)
    requires task.Committing? && !Accepted(s.store, rk, task, outcome)
    ensures ReviewEffect(s, rk, task, outcome) == s
  {
  }

  /** The call after a commit, applied or not, and what it leaves of the store. */
  lemma AfterCommit(s: System, rk: Key, task: ReviewTask, outcome: Outcome)
    requires Stored(s.reviewTasks, rk) == Some(task) && task.Committing?
    ensures var s', e := Step(s, StepReview(rk, outcome)), ReviewEffect(s, rk, task, outcome);
            && s'.store == e.store && s'.log == e.log
            && s'.reviewTasks == s.reviewTasks[rk := WritingReview(task.rv, task.rv.decision.AsReviewState())]
  {
    ReviewEffectLocal(s, rk, task, outcome);
  }

  /** The update a review sends decides its request exactly when it is not lost on the way and is made
      from the stored version; and else it leaves the requests as they are. Either way the review
      goes on to say that it has decided. */
  lemma CommitExactly(s: System, rk: Key, outcome: Outcome)
    requires Inv(s) && rk in s.reviewTasks && s.reviewTasks[rk].Committing?
    ensures var rv, jr, s' := s.reviewTasks[rk].rv, s.reviewTasks[rk].jr, Step(s, StepReview(rk, outcome));
            && (DecidedLast(s', Target(rk, rv), rk, rv, jr) && |s'.log| > |s.log|
                <==> outcome != Fails && Fresh(s.store, Target(rk, rv), jr))
            && (s'.store.requests == s.store.requests <==> !(outcome != Fails && Fresh(s.store, Target(rk, rv), jr)))
            && Stored(s'.reviewTasks, rk) == Some(WritingReview(rv, rv.decision.AsReviewState()))
  {
    var task := s.reviewTasks[rk];
    assert HoldsReview(s.store, rk, task);
    AfterCommit(s, rk, task, outcome);
    if Accepted(s.store, rk, task, outcome) {
      CommitApplied(s, rk, task, outcome);
    } else {
      CommitRefused(s, rk, task, outcome);
    }
  }

  /* ---------- a review that says Approved of a request that is Rejected ---------- */

  /** The review is young and undecided, the cache is up to date, and it decides its request. */
  predicate WouldDecide(s: System, rk: Key) {
    && IdleReview(s, rk) && rk in s.store.reviews && Cached(s.store, rk)
    && s.store.reviews[rk].state == Undecided && !Expired(s.store, s.store.reviews[rk].created)
    && Decides(s.store, rk, s.store.reviews[rk])
  }

  function Commitment(st: Store, rk: Key): ReviewTask
    requires rk in st.reviews && Target(rk, st.reviews[rk]) in st.requests
  {
    Committing(st.reviews[rk], st.requests[Target(rk, st.reviews[rk])])
  }

  /** The calls that bring a review to where it sends its decision. */
  function Approach(rk: Key, rv: Review): seq<Action> {
    [StartReview(rk, Some(rv)), StepReview(rk, Ok), StepReview(rk, Ok)]
  }

  /** The decision and the verdict. */
  function Conclusion(rk: Key): seq<Action> {
    [StepReview(rk, Ok), StepReview(rk, Ok)]
  }

  lemma RunTwo(s: System, a: Action, b: Action)
    ensures Run(s, [a, b]) == Step(Step(s, a), b)
  {
    assert [a, b] == [a] + [b];
    RunOn(s, [a], [b]);
    RunOne(s, a);
    RunOne(Step(s, a), b);
  }

  lemma RunThree(s: System, a: Action, b: Action, c: Action)
    ensures Run(s, [a, b, c]) == Step(Step(Step(s, a), b), c)
  {
    assert [a, b, c] == [a, b] + [c];
    RunOn(s, [a, b], [c]);
    RunTwo(s, a, b);
    RunOne(Step(Step(s, a), b), c);
  }

  lemma FindsItYoung(s: System, rk: Key)
    requires WouldDecide(s, rk)
    ensures Step(BusyReview(s, rk, FetchedReview(s.store.reviews[rk])), StepReview(rk, Ok))
            == BusyReview(s, rk, FindingRequest(s.store.reviews[rk]))
  {
    CallNext(s, rk, FetchedReview(s.store.reviews[rk]), FindingRequest(s.store.reviews[rk]));
  }

  lemma GetsReady(s: System, rk: Key)
    requires WouldDecide(s, rk)
    ensures Run(s, Approach(rk, s.store.reviews[rk])) == BusyReview(s, rk, Commitment(s.store, rk))
  {
    RunThree(s, StartReview(rk, Some(s.store.reviews[rk])), StepReview(rk, Ok), StepReview(rk, Ok));
    StartsFrom(s, rk, s.store.reviews[rk]);
    FindsItYoung(s, rk);
    FindsRequest(s, rk);
  }

  lemma CallNext(s: System, rk: Key, task: ReviewTask, next: ReviewTask)
    requires task.FetchedReview? || task.FindingRequest?
    requires ReviewNext(s.store, rk, task, Ok) == Some(next)
    ensures Step(BusyReview(s, rk, task), StepReview(rk, Ok)) == BusyReview(s, rk, next)
  {
    var b := BusyReview(s, rk, task);
    assert ReviewEffect(b, rk, task, Ok) == b;
    PutTwice(s.reviewTasks, rk, task, next);
    assert Step(b, StepReview(rk, Ok)) == ProceedReview(b, rk, Some(next));
  }

  lemma PutTwice<T>(m: map<Key, T>, k: Key, v: T, w: T)
    ensures m[k := v][k := w] == m[k := w]
  {
  }

  lemma FindsRequest(s: System, rk: Key)
    requires WouldDecide(s, rk)
    ensures Step(BusyReview(s, rk, FindingRequest(s.store.reviews[rk])), StepReview(rk, Ok)) == BusyReview(s, rk, Commitment(s.store, rk))
  {
    CallNext(s, rk, FindingRequest(s.store.reviews[rk]), Commitment(s.store, rk));
  }

  /** Two reviews get ready, one after the other; the first sends its decision and its verdict, then
      the second does. */
  function Race(st: Store, ra: Key, rb: Key): seq<Action>
    requires ra in st.reviews && rb in st.reviews
  {
    Approach(ra, st.reviews[ra]) + Approach(rb, st.reviews[rb]) + Conclusion(ra) + Conclusion(rb)
  }

  /** A verdict touches nothing but its review. */
  lemma VerdictTouches(s: System, rk: Key, rv: Review, to: ReviewState)
    requires Stored(s.reviewTasks, rk) == Some(WritingReview(rv, to))
    ensures var s' := Step(s, StepReview(rk, Ok));
            && s'.store.requests == s.store.requests && s'.reviewTasks == s.reviewTasks - {rk}
            && (forall x | x != rk :: Stored(s'.store.reviews, x) == Stored(s.store.reviews, x))
  {
    ReviewEffectLocal(s, rk, WritingReview(rv, to), Ok);
    ReviewEffectOwn(s, rk, WritingReview(rv, to), Ok);
  }

  lemma FirstDecides(s: System, ra: Key, task: ReviewTask, k: Key)
    requires Inv(s) && Stored(s.reviewTasks, ra) == Some(task) && task.Committing?
    requires Target(ra, task.rv) == k && Stored(s.store.requests, k) == Some(task.jr)
    ensures var s' := Step(s, StepReview(ra, Ok));
            && k in s'.store.requests && s'.store.requests[k].status == DecidedStatus(ra, task.rv, task.jr)
            && s'.store.requests[k].version > task.jr.version && s'.store.reviews == s.store.reviews
  {
    assert HoldsReview(s.store, ra, task);
    AfterCommit(s, ra, task, Ok);
    assert Accepted(s.store, ra, task, Ok);
    P.ReviewEffectLog(s, ra, task, Ok);
  }

  /** The first decision and verdict. */
  lemma FirstCommits(s: System, ra: Key, task: ReviewTask, k: Key)
    requires Inv(s) && Stored(s.reviewTasks, ra) == Some(task) && task.Committing?
    requires Target(ra, task.rv) == k && Stored(s.store.requests, k) == Some(task.jr)
    ensures var s' := Step(Step(s, StepReview(ra, Ok)), StepReview(ra, Ok));
            && k in s'.store.requests && s'.store.requests[k].status == DecidedStatus(ra, task.rv, task.jr)
            && s'.store.requests[k].version > task.jr.version
            && s'.reviewTasks == s.reviewTasks - {ra}
            && (forall rk | rk != ra :: Stored(s'.store.reviews, rk) == Stored(s.store.reviews, rk))
  {
    var to := task.rv.decision.AsReviewState();
    FirstDecides(s, ra, task, k);
    AfterCommit(s, ra, task, Ok);
    VerdictTouches(Step(s, StepReview(ra, Ok)), ra, task.rv, to);
    PutThenDrop(s.reviewTasks, ra, WritingReview(task.rv, to));
  }

  lemma PutThenDrop<T>(m: map<Key, T>, k: Key, v: T)
    ensures m[k := v] - {k} == m - {k}
  {
  }

  /** The second update is refused, and its verdict written all the same. */
  lemma SecondIsRefused(s: System, rb: Key, task: ReviewTask)
    requires Stored(s.reviewTasks, rb) == Some(task) && task.Committing?
    requires !Fresh(s.store, Target(rb, task.rv), task.jr)
    requires Stored(s.store.reviews, rb) == Some(task.rv) && task.rv.state == Undecided
    ensures var s' := Step(Step(s, StepReview(rb, Ok)), StepReview(rb, Ok));
            && s'.store.requests == s.store.requests
            && rb in s'.store.reviews && s'.store.reviews[rb].state == task.rv.decision.AsReviewState()
  {
    AfterCommit(s, rb, task, Ok);
    CommitRefused(s, rb, task, Ok);
    VerdictTouches(Step(s, StepReview(rb, Ok)), rb, task.rv, task.rv.decision.AsReviewState());
  }

  /** Both are ready, and nothing else has changed. */
  lemma BothReady(s: System, ra: Key, rb: Key)
    requires ra != rb && WouldDecide(s, ra) && WouldDecide(s, rb)
    ensures Run(s, Approach(ra, s.store.reviews[ra]) + Approach(rb, s.store.reviews[rb]))
            == BusyReview(BusyReview(s, ra, Commitment(s.store, ra)), rb, Commitment(s.store, rb))
  {
    RunOn(s, Approach(ra, s.store.reviews[ra]), Approach(rb, s.store.reviews[rb]));
    GetsReady(s, ra);
    GetsReady(BusyReview(s, ra, Commitment(s.store, ra)), rb);
  }

  /** From every state in which one review would reject a request and another approve it there is a
      run that leaves the request Rejected by the first and the second saying Approved. */
  lemma RefusedApproval(s: System, ra: Key, rb: Key, k: Key)
    requires Inv(s) && ra != rb && WouldDecide(s, ra) && WouldDecide(s, rb)
    requires Target(ra, s.store.reviews[ra]) == k == Target(rb, s.store.reviews[rb])
    requires s.store.reviews[ra].decision == Reject && s.store.reviews[rb].decision == Approve
    ensures var end := Run(s, Race(s.store, ra, rb));
            && k in end.store.requests && end.store.requests[k].status.state == Rejected && end.store.requests[k].WasReviewedBy(ra.name)
            && rb in end.store.reviews && end.store.reviews[rb].state == ReviewApproved
  {
    var ready := BusyReview(BusyReview(s, ra, Commitment(s.store, ra)), rb, Commitment(s.store, rb));
    BothReady(s, ra, rb);
    RaceIsSteps(s, ra, rb, ready);
    RunKeepsInv(s, Approach(ra, s.store.reviews[ra]) + Approach(rb, s.store.reviews[rb]));
    RaceEnds(ready, ra, rb, Commitment(s.store, ra), Commitment(s.store, rb), k);
  }

  /** Both sent from the same version, the second is refused. */
  lemma RaceEnds(ready: System, ra: Key, rb: Key, ta: ReviewTask, tb: ReviewTask, k: Key)
    requires Inv(ready) && ra != rb && Stored(ready.reviewTasks, ra) == Some(ta) && Stored(ready.reviewTasks, rb) == Some(tb)
    requires ta.Committing? && tb.Committing? && ta.jr == tb.jr && Target(ra, ta.rv) == k == Target(rb, tb.rv)
    requires Stored(ready.store.requests, k) == Some(ta.jr)
    requires Stored(ready.store.reviews, rb) == Some(tb.rv) && tb.rv.state == Undecided
    ensures var end := Step(Step(Step(Step(ready, StepReview(ra, Ok)), StepReview(ra, Ok)), StepReview(rb, Ok)), StepReview(rb, Ok));
            && k in end.store.requests && end.store.requests[k].status == DecidedStatus(ra, ta.rv, ta.jr)
            && rb in end.store.reviews && end.store.reviews[rb].state == tb.rv.decision.AsReviewState()
  {
    FirstCommits(ready, ra, ta, k);
    SecondIsLeft(ready, Step(Step(ready, StepReview(ra, Ok)), StepReview(ra, Ok)), ra, rb, k);
    SecondIsRefused(Step(Step(ready, StepReview(ra, Ok)), StepReview(ra, Ok)), rb, tb);
  }

  lemma SecondIsLeft(s: System, t: System, ra: Key, rb: Key, k: Key)
    requires ra != rb && t.reviewTasks == s.reviewTasks - {ra}
    requires forall rk | rk != ra :: Stored(t.store.reviews, rk) == Stored(s.store.reviews, rk)
    ensures Stored(t.reviewTasks, rb) == Stored(s.reviewTasks, rb) && Stored(t.store.reviews, rb) == Stored(s.store.reviews, rb)
  {
  }

  lemma RaceIsSteps(s: System, ra: Key, rb: Key, ready: System)
    requires ra in s.store.reviews && rb in s.store.reviews
    requires ready == Run(s, Approach(ra, s.store.reviews[ra]) + Approach(rb, s.store.reviews[rb]))
    ensures Run(s, Race(s.store, ra, rb))
            == Step(Step(Step(Step(ready, StepReview(ra, Ok)), StepReview(ra, Ok)), StepReview(rb, Ok)), StepReview(rb, Ok))
  {
    var first := Approach(ra, s.store.reviews[ra]) + Approach(rb, s.store.reviews[rb]);
    RunOn(s, first + Conclusion(ra), Conclusion(rb));
    RunOn(s, first, Conclusion(ra));
    RunTwo(ready, StepReview(ra, Ok), StepReview(ra, Ok));
    RunTwo(Run(ready, Conclusion(ra)), StepReview(rb, Ok), StepReview(rb, Ok));
  }

  /* ---------- whole runs ---------- */

  /** Incarnation `uid` of review `rk` decided on a request. */
  predicate DecidedBy(e: Event, rk: Key, uid: nat) {
    e.RequestWritten? && e.decider.Some? && e.decider.value.key == rk && e.decider.value.review.uid == uid
  }

  predicate EverDecided(log: seq<Event>, rk: Key, uid: nat) {
    exists e | e in log :: DecidedBy(e, rk, uid)
  }

  /** In `s` action `a` sends the decision of this incarnation. */
  predicate Sends(s: System, a: Action, rk: Key, uid: nat) {
    && a.StepReview? && a.key == rk && rk in s.reviewTasks
    && s.reviewTasks[rk].Committing? && s.reviewTasks[rk].rv.uid == uid
  }

  /** It sends it, and the update is applied. */
  predicate Applies(s: System, a: Action, rk: Key, uid: nat) {
    Sends(s, a, rk, uid) && Accepted(s.store, rk, s.reviewTasks[rk], a.outcome)
  }

  /** At some step of the run. */
  predicate EverSent(s: System, actions: seq<Action>, rk: Key, uid: nat) {
    actions != [] &&
    (EverSent(s, actions[..|actions| - 1], rk, uid)
     || Sends(Run(s, actions[..|actions| - 1]), actions[|actions| - 1], rk, uid))
  }

  predicate EverApplied(s: System, actions: seq<Action>, rk: Key, uid: nat) {
    actions != [] &&
    (EverApplied(s, actions[..|actions| - 1], rk, uid)
     || Applies(Run(s, actions[..|actions| - 1]), actions[|actions| - 1], rk, uid))
  }

  /** A step adds a decision by the review exactly when it is one that applies its update. */
  lemma StepDecides(s: System, a: Action, rk: Key, uid: nat)
    requires Inv(s)
    ensures EverDecided(Step(s, a).log, rk, uid) <==> EverDecided(s.log, rk, uid) || Applies(s, a, rk, uid)
  {
    if a.StepRequest? {
      if a.key in s.requestTasks {
        assert Holds(Stored(s.store.requests, a.key), a.key, s.requestTasks[a.key]);
        P.RequestEffectLog(s, a.key, s.requestTasks[a.key], a.outcome);
      }
    } else if a.StepReview? {
      if a.key in s.reviewTasks {
        ReviewStepDecides(s, a.key, a.outcome, rk, uid);
      }
    }
  }

  lemma ReviewStepDecides(s: System, x: Key, outcome: Outcome, rk: Key, uid: nat)
    requires Inv(s) && x in s.reviewTasks
    ensures EverDecided(ReviewEffect(s, x, s.reviewTasks[x], outcome).log, rk, uid)
            <==> EverDecided(s.log, rk, uid) || Applies(s, StepReview(x, outcome), rk, uid)
  {
    assert HoldsReview(s.store, x, s.reviewTasks[x]);
    P.ReviewEffectLog(s, x, s.reviewTasks[x], outcome);
    var log' := ReviewEffect(s, x, s.reviewTasks[x], outcome).log;
    if log' != s.log {
      DecidedGrows(s.log, Last(log'), rk, uid);
    }
  }

  lemma DecidedGrows(log: seq<Event>, e: Event, rk: Key, uid: nat)
    ensures EverDecided(log + [e], rk, uid) <==> EverDecided(log, rk, uid) || DecidedBy(e, rk, uid)
  {
    assert e in log + [e];
    assert forall x | x in log :: x in log + [e];
  }

  /** In every run a review has decided exactly when an update it sent was applied. */
  lemma {:induction false} DecidedExactly(s: System, actions: seq<Action>, rk: Key, uid: nat)
    requires Initial(s)
    ensures EverDecided(Run(s, actions).log, rk, uid) <==> EverApplied(s, actions, rk, uid)
    decreases |actions|
  {
    if actions != [] {
      var prefix := actions[..|actions| - 1];
      DecidedExactly(s, prefix, rk, uid);
      RunIsAtomic(s, prefix);
      StepDecides(Run(s, prefix), actions[|actions| - 1], rk, uid);
    }
  }

  predicate SaysDecided(state: ReviewState) {
    state == ReviewApproved || state == ReviewRejected
  }

  /** A verdict about to be written that says it decided is the review's decision, and that was sent. */
  predicate TaskSent(s: System, actions: seq<Action>, rk: Key, task: ReviewTask) {
    task.WritingReview? && SaysDecided(task.to) ==>
      task.to == task.rv.decision.AsReviewState() && EverSent(s, actions, rk, task.rv.uid)
  }

  predicate StoredSent(s: System, actions: seq<Action>, rk: Key, rv: Review) {
    SaysDecided(rv.state) ==> rv.state == rv.decision.AsReviewState() && EverSent(s, actions, rk, rv.uid)
  }

  predicate SentBefore(s: System, actions: seq<Action>, rk: Key) {
    var now := Run(s, actions);
    && (rk in now.reviewTasks ==> TaskSent(s, actions, rk, now.reviewTasks[rk]))
    && (rk in now.store.reviews ==> StoredSent(s, actions, rk, now.store.reviews[rk]))
  }

  lemma NextSays(now: System, rk: Key, task: ReviewTask, outcome: Outcome)
    ensures var next := ReviewNext(now.store, rk, task, outcome);
            next.Some? && next.value.WritingReview? && SaysDecided(next.value.to) ==>
              task.Committing? && next.value == WritingReview(task.rv, task.rv.decision.AsReviewState())
  {
  }

  lemma EffectSays(now: System, rk: Key, task: ReviewTask, outcome: Outcome)
    requires Recorded(now) && HoldsReview(now.store, rk, task)
    ensures var s' := ReviewEffect(now, rk, task, outcome);
            rk in s'.store.reviews ==>
              Stored(now.store.reviews, rk) == Some(s'.store.reviews[rk])
              || (task.WritingReview? && s'.store.reviews[rk].state == task.to
                  && s'.store.reviews[rk].decision == task.rv.decision && s'.store.reviews[rk].uid == task.rv.uid)
  {
    if task.WritingReview? && FreshReview(now.store, rk, task.rv) {
      FreshReviewIsStored(now.store, now.log, rk, task.rv);
    }
  }

  /** The own call of the review. */
  lemma OwnCallSent(now: System, rk: Key, outcome: Outcome)
    requires Inv(now) && rk in now.reviewTasks
    ensures var task, s' := now.reviewTasks[rk], Step(now, StepReview(rk, outcome));
            && (rk in s'.reviewTasks && s'.reviewTasks[rk].WritingReview? && SaysDecided(s'.reviewTasks[rk].to) ==>
                  task.Committing? && s'.reviewTasks[rk] == WritingReview(task.rv, task.rv.decision.AsReviewState()))
            && (rk in s'.store.reviews ==>
                  Stored(now.store.reviews, rk) == Some(s'.store.reviews[rk])
                  || (task.WritingReview? && s'.store.reviews[rk].state == task.to
                      && s'.store.reviews[rk].decision == task.rv.decision && s'.store.reviews[rk].uid == task.rv.uid))
  {
    var task := now.reviewTasks[rk];
    assert HoldsReview(now.store, rk, task);
    NextSays(now, rk, task, outcome);
    EffectSays(now, rk, task, outcome);
    ReviewCallIs(now, rk, outcome);
  }

  /** From `now` to `s'` the review and what its reconcile holds stay as they are, or begin anew. */
  predicate LeftOrBegun(now: System, s': System, rk: Key) {
    && (rk in s'.reviewTasks ==> Stored(now.reviewTasks, rk) == Some(s'.reviewTasks[rk]) || s'.reviewTasks[rk].FetchedReview?)
    && (rk in s'.store.reviews ==> Stored(now.store.reviews, rk) == Some(s'.store.reviews[rk]) || s'.store.reviews[rk].state == Undecided)
  }

  lemma WorldLeaves(now: System, a: Action, rk: Key)
    requires !a.StepRequest? && !a.StepReview?
    ensures LeftOrBegun(now, Step(now, a), rk)
  {
  }

  /** Anybody else's step. */
  lemma OtherStepSent(now: System, a: Action, rk: Key)
    requires !(a.StepReview? && a.key == rk)
    ensures LeftOrBegun(now, Step(now, a), rk)
  {
    if a.StepRequest? {
      if a.key in now.requestTasks {
        RequestEffectLocal(now, a.key, now.requestTasks[a.key], a.outcome);
        RequestEffectTime(now, a.key, now.requestTasks[a.key], a.outcome);
      }
    } else if a.StepReview? {
      if a.key in now.reviewTasks {
        ReviewEffectLocal(now, a.key, now.reviewTasks[a.key], a.outcome);
        ReviewEffectOwn(now, a.key, now.reviewTasks[a.key], a.outcome);
      }
    } else {
      WorldLeaves(now, a, rk);
    }
  }

  lemma {:induction false} VerdictsWereSent(s: System, actions: seq<Action>, rk: Key)
    requires Initial(s)
    ensures SentBefore(s, actions, rk)
    decreases |actions|
  {
    if actions != [] {
      var prefix, a := actions[..|actions| - 1], actions[|actions| - 1];
      VerdictsWereSent(s, prefix, rk);
      RunIsAtomic(s, prefix);
      if a.StepReview? && a.key == rk {
        if rk in Run(s, prefix).reviewTasks {
          OwnCallSent(Run(s, prefix), rk, a.outcome);
        }
      } else {
        OtherStepSent(Run(s, prefix), a, rk);
      }
    }
  }

  /** The review whose creation is logged is the stored one, if that is of the same incarnation. */
  lemma {:induction false} SameReviewIncarnation(log: seq<Event>, rk: Key, v: Review)
    requires Atomic(log) && ReviewCreated(rk, v) in log && rk in Reviews(log) && Reviews(log)[rk].uid == v.uid
    ensures SameReview(Reviews(log)[rk], v)
  {
    var before, e := Init(log), Last(log);
    assert log == before + [e];
    if e != ReviewCreated(rk, v) {
      assert ReviewCreated(rk, v) in before;
      SameReviewIncarnation(before, rk, v);
    }
  }

  /** A decision in the history by the stored incarnation is the one the review carries. */
  lemma DecisionMatches(log: seq<Event>, j: nat, rk: Key)
    requires Atomic(log) && j < |log| && rk in Reviews(log) && DecidedBy(log[j], rk, Reviews(log)[rk].uid)
    ensures log[j].after.status.state == Reviews(log)[rk].decision.AsRequestState()
    ensures log[j].key == Target(rk, Reviews(log)[rk]) && log[j].after.WasReviewedBy(rk.name)
  {
    AllowedAt(log, j);
    SameReviewIncarnation(log, rk, log[j].decider.value.review);
  }

  /** In every run a stored review that says Approved or Rejected says what it carries and has sent it;
      and its request was ever so decided by it exactly when an update it sent was applied. */
  lemma VerdictExactly(s: System, actions: seq<Action>, rk: Key)
    requires Initial(s) && rk in Run(s, actions).store.reviews && SaysDecided(Run(s, actions).store.reviews[rk].state)
    ensures var log, rv := Run(s, actions).log, Run(s, actions).store.reviews[rk];
            && rv.state == rv.decision.AsReviewState()
            && EverSent(s, actions, rk, rv.uid)
            && (EverApplied(s, actions, rk, rv.uid) <==>
                exists e | e in log :: DecidedBy(e, rk, rv.uid) && e.key == Target(rk, rv)
                                       && e.after.status.state == rv.decision.AsRequestState() && e.after.WasReviewedBy(rk.name))
  {
    var log, rv := Run(s, actions).log, Run(s, actions).store.reviews[rk];
    VerdictsWereSent(s, actions, rk);
    DecidedExactly(s, actions, rk, rv.uid);
    RunIsAtomic(s, actions);
    if EverDecided(log, rk, rv.uid) {
      var j :| 0 <= j < |log| && DecidedBy(log[j], rk, rv.uid);
      DecisionMatches(log, j, rk);
      assert log[j] in log;
    }
  }
}
