/** Two steps that share no request and no review name commute. What a step touches is read off the
    step and the system it is taken in. */
module Commuting {
  import opened Api
  import opened Protocol
  import opened History
  import opened Invariant
  import Decisions

  /* ---------- footprints ---------- */

  /** The request a stored review is of. */
  function StoredTarget(s: System, rk: Key): set<Key> {
    if rk in s.store.reviews then {Target(rk, s.store.reviews[rk])} else {}
  }

  /** The request the review in hand is of. */
  function HeldTarget(s: System, rk: Key): set<Key> {
    if rk in s.reviewTasks then {Target(rk, s.reviewTasks[rk].rv)} else {}
  }

  /** The requests a step may read or change, or whose list of reviews it may change. */
  function RequestsOf(s: System, a: Action): set<Key> {
    match a
    case CreateReview(rk, _, name, _) => {Key(rk.namespace, name)}
    case StepReview(rk, _) => StoredTarget(s, rk) + HeldTarget(s, rk)
    case StartReview(_, _) => {}
    case StopReview(_) => {}
    case Tick(_) => {}
    case _ => {a.key}
  }

  /** The review names it may read or change. */
  function NamesOf(a: Action): set<Key> {
    match a
    case CreateReview(rk, _, _, _) => {rk}
    case StartReview(rk, _) => {rk}
    case StepReview(rk, _) => {rk}
    case StopReview(rk) => {rk}
    case _ => {}
  }

  /** Everybody sees the clock and the Deployments. */
  predicate OfTheWorld(a: Action) {
    a.Tick? || a.SetDeployment?
  }

  predicate Apart(s: System, a: Action, b: Action) {
    && !OfTheWorld(a) && !OfTheWorld(b)
    && RequestsOf(s, a) !! RequestsOf(s, b) && NamesOf(a) !! NamesOf(b)
  }

  /* ---------- agreement ---------- */

  predicate SameRequestPart(s: System, t: System, k: Key) {
    && Stored(s.store.requests, k) == Stored(t.store.requests, k)
    && Stored(s.store.jobs, k) == Stored(t.store.jobs, k)
    && Stored(s.store.requestRev, k) == Stored(t.store.requestRev, k)
    && Stored(s.requestTasks, k) == Stored(t.requestTasks, k)
  }

  predicate SameReviewPart(s: System, t: System, rk: Key) {
    && Stored(s.store.reviews, rk) == Stored(t.store.reviews, rk)
    && Stored(s.store.reviewRev, rk) == Stored(t.store.reviewRev, rk)
    && Stored(s.store.seen, rk) == Stored(t.store.seen, rk)
    && Stored(s.reviewTasks, rk) == Stored(t.reviewTasks, rk)
  }

  predicate SameWorld(s: System, t: System) {
    s.store.clock == t.store.clock && s.store.ttl == t.store.ttl && s.store.deployments == t.store.deployments
  }

  /** The systems look the same to step `a`. */
  predicate Alike(s: System, t: System, a: Action) {
    && SameWorld(s, t)
    && (forall k | k in RequestsOf(s, a) :: SameRequestPart(s, t, k) && ReviewsOf(s.store, k) == ReviewsOf(t.store, k))
    && (forall rk | rk in NamesOf(a) :: SameReviewPart(s, t, rk))
  }

  /** What is new in a log. */
  function Growth(log: seq<Event>, now: seq<Event>): seq<Event> {
    if now == log || now == [] then [] else [Last(now)]
  }

  /** What the step adds to the log. */
  function Added(s: System, a: Action): seq<Event> {
    Growth(s.log, Step(s, a).log)
  }

  lemma StoredSame<T>(m: map<Key, T>, n: map<Key, T>, k: Key)
    requires Stored(m, k) == Stored(n, k)
    ensures k in m <==> k in n
    ensures k in m ==> m[k] == n[k]
  {
  }

  /* ---------- a step keeps to its footprint ---------- */

  /** From `s` to `t` only what is in the footprint changes. */
  ghost predicate OnlyIn(s: System, t: System, requests: set<Key>, names: set<Key>) {
    && SameWorld(s, t)
    && (forall k | k !in requests :: SameRequestPart(s, t, k))
    && (forall rk | rk !in names :: SameReviewPart(s, t, rk))
  }

  predicate SameIn(s: System, t: System, requests: set<Key>, names: set<Key>) {
    && (forall k | k in requests :: SameRequestPart(s, t, k))
    && (forall rk | rk in names :: SameReviewPart(s, t, rk))
  }

  lemma FileRequestKeepsOut(s: System, k: Key, jr: JobRequest, e: Event)
    ensures OnlyIn(s, FileRequest(s, k, jr, e), {k}, {})
  {
  }

  lemma FileReviewKeepsOut(s: System, rk: Key, rv: Review, e: Event)
    ensures OnlyIn(s, FileReview(s, rk, rv, e), {}, {rk})
  {
  }

  lemma UpdateKeepsOut(s: System, k: Key, jr: JobRequest, status: RequestStatus, d: Option<Decider>, outcome: Outcome)
    ensures OnlyIn(s, AfterUpdate(s, k, jr, status, d, outcome), {k}, {})
  {
    if outcome != Fails && Fresh(s.store, k, jr) && s.store.requests[k].status != status {
      var v := Rev(s.store.requestRev, k) + 1;
      var now := s.store.requests[k].(version := v, status := status);
      FileRequestKeepsOut(s, k, now, RequestWritten(k, s.store.requests[k], now, d));
    }
  }

  lemma RequestEffectKeepsOut(s: System, k: Key, task: RequestTask, outcome: Outcome)
    ensures OnlyIn(s, RequestEffect(s, k, task, outcome), {k}, {})
  {
    if task.Writing? {
      UpdateKeepsOut(s, k, task.jr, task.status, None, outcome);
    }
  }

  lemma RequestStepKeepsOut(s: System, k: Key, outcome: Outcome)
    ensures OnlyIn(s, Step(s, StepRequest(k, outcome)), {k}, {})
  {
    if k in s.requestTasks {
      RequestEffectKeepsOut(s, k, s.requestTasks[k], outcome);
      RequestEffectLocal(s, k, s.requestTasks[k], outcome);
    }
  }

  lemma VerdictKeepsOut(s: System, rk: Key, to: ReviewState)
    requires rk in s.store.reviews
    ensures OnlyIn(s, PutReviewState(s, rk, to), {}, {rk})
  {
    var was := s.store.reviews[rk];
    var now := was.(version := Rev(s.store.reviewRev, rk) + 1, state := to);
    FileReviewKeepsOut(s, rk, now, ReviewWritten(rk, was, now));
  }

  lemma ReviewEffectKeepsOut(s: System, rk: Key, task: ReviewTask, outcome: Outcome)
    ensures OnlyIn(s, ReviewEffect(s, rk, task, outcome), {Target(rk, task.rv)}, {rk})
  {
    if task.Committing? {
      UpdateKeepsOut(s, Target(rk, task.rv), task.jr, DecidedStatus(rk, task.rv, task.jr), Some(Decider(rk, task.rv)), outcome);
    } else if task.WritingReview? && rk in s.store.reviews {
      VerdictKeepsOut(s, rk, task.to);
    }
  }

  lemma ReviewStepKeepsOut(s: System, rk: Key, outcome: Outcome)
    ensures OnlyIn(s, Step(s, StepReview(rk, outcome)), HeldTarget(s, rk), {rk})
  {
    if rk in s.reviewTasks {
      ReviewEffectKeepsOut(s, rk, s.reviewTasks[rk], outcome);
      ReviewEffectLocal(s, rk, s.reviewTasks[rk], outcome);
    }
  }

  lemma AddRequestKeepsOut(s: System, k: Key, requestedBy: Option<string>, spec: RequestSpec)
    ensures OnlyIn(s, AddRequest(s, k, requestedBy, spec), {k}, {})
  {
    if k !in s.store.requests {
      var v := Rev(s.store.requestRev, k) + 1;
      var jr := JobRequest(v, v, s.store.clock, requestedBy, spec, BLANK_STATUS);
      FileRequestKeepsOut(s, k, jr, RequestCreated(k, jr));
    }
  }

  lemma AddReviewKeepsOut(s: System, rk: Key, reviewedBy: Option<string>, requestName: string, decision: Decision)
    ensures OnlyIn(s, AddReview(s, rk, reviewedBy, requestName, decision), {}, {rk})
  {
    if rk !in s.store.reviews {
      var v := Rev(s.store.reviewRev, rk) + 1;
      var rv := Review(v, v, s.store.clock, reviewedBy, requestName, decision, Undecided);
      FileReviewKeepsOut(s, rk, rv, ReviewCreated(rk, rv));
    }
  }

  lemma SetJobKeepsOut(s: System, k: Key, job: Option<Job>)
    ensures OnlyIn(s, Step(s, SetJob(k, job)), {k}, {})
  {
  }

  lemma ProceedKeepsOut(s: System, k: Key, next: Option<RequestTask>)
    ensures OnlyIn(s, Proceed(s, k, next), {k}, {})
  {
  }

  lemma ProceedReviewKeepsOut(s: System, rk: Key, next: Option<ReviewTask>)
    ensures OnlyIn(s, ProceedReview(s, rk, next), {}, {rk})
  {
  }

  lemma StepKeepsOut(s: System, a: Action)
    requires !OfTheWorld(a)
    ensures OnlyIn(s, Step(s, a), RequestsOf(s, a), NamesOf(a))
  {
    if a.StepRequest? {
      RequestStepKeepsOut(s, a.key, a.outcome);
    } else if a.StepReview? {
      ReviewStepKeepsOut(s, a.key, a.outcome);
    } else if a.CreateRequest? {
      AddRequestKeepsOut(s, a.key, a.requestedBy, a.spec);
    } else if a.CreateReview? {
      AddReviewKeepsOut(s, a.key, a.reviewedBy, a.requestName, a.decision);
    } else if a.SetJob? {
      SetJobKeepsOut(s, a.key, a.job);
    } else if a.StartRequest? {
      if a.key in s.store.requests {
        ProceedKeepsOut(s, a.key, Some(Fetched(s.store.requests[a.key])));
      }
    } else if a.StopRequest? {
      ProceedKeepsOut(s, a.key, None);
    } else if a.StartReview? {
      if a.cached.Some? {
        ProceedReviewKeepsOut(s, a.key, Some(FetchedReview(a.cached.value)));
      }
    } else {
      ProceedReviewKeepsOut(s, a.key, None);
    }
  }

  /** Nor does it change the list of reviews of another request. */
  lemma ReviewEffectKeepsLists(s: System, rk: Key, task: ReviewTask, outcome: Outcome, k: Key)
    requires k !in StoredTarget(s, rk)
    ensures ReviewsOf(ReviewEffect(s, rk, task, outcome).store, k) == ReviewsOf(s.store, k)
  {
    var st, st' := s.store, ReviewEffect(s, rk, task, outcome).store;
    ReviewEffectKeepsOut(s, rk, task, outcome);
    forall x ensures x in ReviewsOf(st', k) <==> x in ReviewsOf(st, k) {
      if x == rk {
        EffectKeepsTarget(s, rk, task, outcome);
      } else {
        assert SameReviewPart(s, ReviewEffect(s, rk, task, outcome), x);
        StoredSame(st.reviews, st'.reviews, x);
      }
    }
  }

  lemma EffectKeepsTarget(s: System, rk: Key, task: ReviewTask, outcome: Outcome)
    ensures var st' := ReviewEffect(s, rk, task, outcome).store;
            rk in st'.reviews ==> rk in s.store.reviews && st'.reviews[rk].requestName == s.store.reviews[rk].requestName
  {
  }

  lemma StepKeepsLists(s: System, a: Action, k: Key)
    requires k !in RequestsOf(s, a)
    ensures ReviewsOf(Step(s, a).store, k) == ReviewsOf(s.store, k)
  {
    if a.StepReview? {
      if a.key in s.reviewTasks {
        ReviewEffectKeepsLists(s, a.key, s.reviewTasks[a.key], a.outcome, k);
      }
    } else if a.StepRequest? && a.key in s.requestTasks {
      RequestEffectTime(s, a.key, s.requestTasks[a.key], a.outcome);
    }
  }

  lemma ApartIsAlike(s: System, a: Action, b: Action)
    requires Apart(s, a, b)
    ensures Alike(s, Step(s, b), a)
  {
    StepKeepsOut(s, b);
    forall k | k in RequestsOf(s, a) ensures ReviewsOf(s.store, k) == ReviewsOf(Step(s, b).store, k) {
      StepKeepsLists(s, b, k);
    }
  }

  /* ---------- a step depends on its footprint only ---------- */

  /** In its footprint it does the same to both, and it adds the same to their logs. */
  predicate DoesTheSame(s: System, t: System, a: Action) {
    && RequestsOf(t, a) == RequestsOf(s, a)
    && SameIn(Step(s, a), Step(t, a), RequestsOf(s, a), NamesOf(a))
    && Added(s, a) == Added(t, a)
  }

  lemma RevSame(m: map<Key, nat>, n: map<Key, nat>, k: Key)
    requires Stored(m, k) == Stored(n, k)
    ensures Rev(m, k) == Rev(n, k)
  {
  }

  /** From `s` to `s'` and from `t` to `t'` the same has become of request `k`, and been logged. */
  predicate SameToRequest(s: System, s': System, t: System, t': System, k: Key) {
    SameRequestPart(s', t', k) && Growth(s.log, s'.log) == Growth(t.log, t'.log)
  }

  lemma FileRequestSame(s: System, t: System, k: Key, jr: JobRequest, e: Event)
    requires SameRequestPart(s, t, k)
    ensures SameToRequest(s, FileRequest(s, k, jr, e), t, FileRequest(t, k, jr, e), k)
  {
  }

  lemma UpdateSame(s: System, t: System, k: Key, jr: JobRequest, status: RequestStatus, d: Option<Decider>, outcome: Outcome)
    requires SameRequestPart(s, t, k)
    ensures SameToRequest(s, AfterUpdate(s, k, jr, status, d, outcome), t, AfterUpdate(t, k, jr, status, d, outcome), k)
  {
    StoredSame(s.store.requests, t.store.requests, k);
    RevSame(s.store.requestRev, t.store.requestRev, k);
    if outcome != Fails && Fresh(s.store, k, jr) && s.store.requests[k].status != status {
      var was := s.store.requests[k];
      var now := was.(version := Rev(s.store.requestRev, k) + 1, status := status);
      FileRequestSame(s, t, k, now, RequestWritten(k, was, now, d));
    }
  }

  lemma DeleteRequestSame(s: System, t: System, k: Key)
    requires SameRequestPart(s, t, k)
    ensures SameToRequest(s, DeleteRequest(s, k), t, DeleteRequest(t, k), k)
  {
    StoredSame(s.store.requests, t.store.requests, k);
  }

  lemma MakeJobSame(s: System, t: System, k: Key, jr: JobRequest, job: Job)
    requires SameRequestPart(s, t, k)
    ensures SameToRequest(s, MakeJob(s, k, jr, job), t, MakeJob(t, k, jr, job), k)
  {
  }

  lemma RequestEffectSame(s: System, t: System, k: Key, task: RequestTask, outcome: Outcome)
    requires SameRequestPart(s, t, k)
    ensures SameToRequest(s, RequestEffect(s, k, task, outcome), t, RequestEffect(t, k, task, outcome), k)
  {
    if task.Deleting? {
      DeleteRequestSame(s, t, k);
    } else if task.CreatingJob? {
      StoredSame(s.store.jobs, t.store.jobs, k);
      MakeJobSame(s, t, k, task.jr, task.job);
    } else if task.Writing? {
      UpdateSame(s, t, k, task.jr, task.status, None, outcome);
    }
  }

  lemma CopySame(s: System, t: System, k: Key, jr: JobRequest, status: RequestStatus, outcome: Outcome)
    requires SameRequestPart(s, t, k)
    ensures CopyAfter(s, k, jr, status, outcome) == CopyAfter(t, k, jr, status, outcome)
  {
    StoredSame(s.store.requests, t.store.requests, k);
    RevSame(s.store.requestRev, t.store.requestRev, k);
  }

  lemma RequestNextSame(s: System, t: System, k: Key, task: RequestTask, outcome: Outcome)
    requires SameRequestPart(s, t, k) && SameWorld(s, t) && ReviewsOf(s.store, k) == ReviewsOf(t.store, k)
    ensures RequestNext(s, k, task, outcome) == RequestNext(t, k, task, outcome)
  {
    if task.Writing? {
      CopySame(s, t, k, task.jr, task.status, outcome);
    } else if task.Rereading? {
      StoredSame(s.store.requests, t.store.requests, k);
    } else {
      StoredSame(s.store.jobs, t.store.jobs, k);
    }
  }

  lemma ProceedSame(s: System, t: System, k: Key, next: Option<RequestTask>)
    requires SameRequestPart(s, t, k)
    ensures SameRequestPart(Proceed(s, k, next), Proceed(t, k, next), k)
  {
  }

  lemma RequestStepSame(s: System, t: System, k: Key, outcome: Outcome)
    requires SameRequestPart(s, t, k) && SameWorld(s, t) && ReviewsOf(s.store, k) == ReviewsOf(t.store, k)
    ensures SameToRequest(s, Step(s, StepRequest(k, outcome)), t, Step(t, StepRequest(k, outcome)), k)
  {
    StoredSame(s.requestTasks, t.requestTasks, k);
    if k in s.requestTasks {
      var task := s.requestTasks[k];
      RequestEffectSame(s, t, k, task, outcome);
      RequestNextSame(s, t, k, task, outcome);
      ProceedSame(RequestEffect(s, k, task, outcome), RequestEffect(t, k, task, outcome), k, RequestNext(s, k, task, outcome));
    }
  }

  predicate SameToReview(s: System, s': System, t: System, t': System, rk: Key) {
    SameReviewPart(s', t', rk) && Growth(s.log, s'.log) == Growth(t.log, t'.log)
  }

  lemma FileReviewSame(s: System, t: System, rk: Key, rv: Review, e: Event)
    requires SameReviewPart(s, t, rk)
    ensures SameToReview(s, FileReview(s, rk, rv, e), t, FileReview(t, rk, rv, e), rk)
  {
    StoredSame(s.store.seen, t.store.seen, rk);
  }

  lemma VerdictSame(s: System, t: System, rk: Key, to: ReviewState)
    requires SameReviewPart(s, t, rk) && rk in s.store.reviews
    ensures rk in t.store.reviews && SameToReview(s, PutReviewState(s, rk, to), t, PutReviewState(t, rk, to), rk)
  {
    StoredSame(s.store.reviews, t.store.reviews, rk);
    RevSame(s.store.reviewRev, t.store.reviewRev, rk);
    var was := s.store.reviews[rk];
    var now := was.(version := Rev(s.store.reviewRev, rk) + 1, state := to);
    FileReviewSame(s, t, rk, now, ReviewWritten(rk, was, now));
  }

  lemma DeleteReviewSame(s: System, t: System, rk: Key)
    requires SameReviewPart(s, t, rk)
    ensures SameToReview(s, DeleteReview(s, rk), t, DeleteReview(t, rk), rk)
  {
    StoredSame(s.store.reviews, t.store.reviews, rk);
  }

  lemma UpdateSparesReviews(s: System, k: Key, jr: JobRequest, status: RequestStatus, d: Option<Decider>, outcome: Outcome, rk: Key)
    ensures SameReviewPart(s, AfterUpdate(s, k, jr, status, d, outcome), rk)
  {
    UpdateKeepsOut(s, k, jr, status, d, outcome);
  }

  lemma ReviewEffectSame(s: System, t: System, rk: Key, task: ReviewTask, outcome: Outcome)
    requires SameReviewPart(s, t, rk) && SameRequestPart(s, t, Target(rk, task.rv))
    ensures SameToReview(s, ReviewEffect(s, rk, task, outcome), t, ReviewEffect(t, rk, task, outcome), rk)
  {
    StoredSame(s.store.reviews, t.store.reviews, rk);
    if task.DeletingReview? {
      DeleteReviewSame(s, t, rk);
    } else if task.Committing? {
      var k, status, d := Target(rk, task.rv), DecidedStatus(rk, task.rv, task.jr), Some(Decider(rk, task.rv));
      UpdateSame(s, t, k, task.jr, status, d, outcome);
      UpdateSparesReviews(s, k, task.jr, status, d, outcome, rk);
      UpdateSparesReviews(t, k, task.jr, status, d, outcome, rk);
    } else if task.WritingReview? && rk in s.store.reviews {
      VerdictSame(s, t, rk, task.to);
    }
  }

  /** What a review call does to a request: the same to both, or nothing. */
  lemma ReviewEffectSameRequest(s: System, t: System, rk: Key, task: ReviewTask, outcome: Outcome, k: Key)
    requires SameRequestPart(s, t, k)
    ensures SameRequestPart(ReviewEffect(s, rk, task, outcome), ReviewEffect(t, rk, task, outcome), k)
  {
    if task.Committing? && Target(rk, task.rv) == k {
      UpdateSame(s, t, k, task.jr, DecidedStatus(rk, task.rv, task.jr), Some(Decider(rk, task.rv)), outcome);
    } else {
      ReviewEffectSpares(s, rk, task, outcome, k);
      ReviewEffectSpares(t, rk, task, outcome, k);
    }
  }

  lemma ReviewEffectSpares(s: System, rk: Key, task: ReviewTask, outcome: Outcome, k: Key)
    requires !(task.Committing? && Target(rk, task.rv) == k)
    ensures SameRequestPart(s, ReviewEffect(s, rk, task, outcome), k)
  {
    ReviewEffectLocal(s, rk, task, outcome);
    if task.Committing? {
      UpdateKeepsOut(s, Target(rk, task.rv), task.jr, DecidedStatus(rk, task.rv, task.jr), Some(Decider(rk, task.rv)), outcome);
    }
  }

  lemma ReviewNextSame(s: System, t: System, rk: Key, task: ReviewTask, outcome: Outcome)
    requires SameWorld(s, t) && SameRequestPart(s, t, Target(rk, task.rv))
    ensures ReviewNext(s.store, rk, task, outcome) == ReviewNext(t.store, rk, task, outcome)
  {
    StoredSame(s.store.requests, t.store.requests, Target(rk, task.rv));
  }

  lemma ProceedReviewSame(s: System, t: System, rk: Key, next: Option<ReviewTask>)
    requires SameReviewPart(s, t, rk)
    ensures SameReviewPart(ProceedReview(s, rk, next), ProceedReview(t, rk, next), rk)
  {
  }

  lemma ReviewCallSame(s: System, t: System, rk: Key, task: ReviewTask, outcome: Outcome)
    requires SameReviewPart(s, t, rk) && SameWorld(s, t) && SameRequestPart(s, t, Target(rk, task.rv))
    ensures SameToReview(s, AdvanceReview(s, rk, task, outcome), t, AdvanceReview(t, rk, task, outcome), rk)
  {
    ReviewEffectSame(s, t, rk, task, outcome);
    ReviewNextSame(s, t, rk, task, outcome);
    ProceedReviewSame(ReviewEffect(s, rk, task, outcome), ReviewEffect(t, rk, task, outcome), rk, ReviewNext(s.store, rk, task, outcome));
  }

  lemma ReviewStepSame(s: System, t: System, rk: Key, outcome: Outcome)
    requires Alike(s, t, StepReview(rk, outcome))
    ensures DoesTheSame(s, t, StepReview(rk, outcome))
  {
    assert SameReviewPart(s, t, rk);
    StoredSame(s.reviewTasks, t.reviewTasks, rk);
    StoredSame(s.store.reviews, t.store.reviews, rk);
    if rk in s.reviewTasks {
      var task := s.reviewTasks[rk];
      ReviewCallSame(s, t, rk, task, outcome);
      forall k | k in RequestsOf(s, StepReview(rk, outcome))
        ensures SameRequestPart(Step(s, StepReview(rk, outcome)), Step(t, StepReview(rk, outcome)), k)
      {
        ReviewEffectSameRequest(s, t, rk, task, outcome, k);
      }
    }
  }

  lemma AddRequestSame(s: System, t: System, k: Key, requestedBy: Option<string>, spec: RequestSpec)
    requires SameRequestPart(s, t, k) && SameWorld(s, t)
    ensures SameToRequest(s, AddRequest(s, k, requestedBy, spec), t, AddRequest(t, k, requestedBy, spec), k)
  {
    StoredSame(s.store.requests, t.store.requests, k);
    RevSame(s.store.requestRev, t.store.requestRev, k);
    var v := Rev(s.store.requestRev, k) + 1;
    var jr := JobRequest(v, v, s.store.clock, requestedBy, spec, BLANK_STATUS);
    FileRequestSame(s, t, k, jr, RequestCreated(k, jr));
  }

  lemma AddReviewSame(s: System, t: System, rk: Key, reviewedBy: Option<string>, requestName: string, decision: Decision)
    requires SameReviewPart(s, t, rk) && SameWorld(s, t)
    ensures SameToReview(s, AddReview(s, rk, reviewedBy, requestName, decision), t, AddReview(t, rk, reviewedBy, requestName, decision), rk)
  {
    StoredSame(s.store.reviews, t.store.reviews, rk);
    RevSame(s.store.reviewRev, t.store.reviewRev, rk);
    var v := Rev(s.store.reviewRev, rk) + 1;
    var rv := Review(v, v, s.store.clock, reviewedBy, requestName, decision, Undecided);
    FileReviewSame(s, t, rk, rv, ReviewCreated(rk, rv));
  }

  lemma CreateReviewSame(s: System, t: System, rk: Key, reviewedBy: Option<string>, requestName: string, decision: Decision)
    requires Alike(s, t, CreateReview(rk, reviewedBy, requestName, decision))
    ensures DoesTheSame(s, t, CreateReview(rk, reviewedBy, requestName, decision))
  {
    assert SameReviewPart(s, t, rk);
    AddReviewSame(s, t, rk, reviewedBy, requestName, decision);
    AddReviewKeepsOut(s, rk, reviewedBy, requestName, decision);
    AddReviewKeepsOut(t, rk, reviewedBy, requestName, decision);
    forall k | k in RequestsOf(s, CreateReview(rk, reviewedBy, requestName, decision))
      ensures SameRequestPart(AddReview(s, rk, reviewedBy, requestName, decision), AddReview(t, rk, reviewedBy, requestName, decision), k)
    {
      assert SameRequestPart(s, AddReview(s, rk, reviewedBy, requestName, decision), k);
      assert SameRequestPart(t, AddReview(t, rk, reviewedBy, requestName, decision), k);
    }
  }

  lemma StartRequestSame(s: System, t: System, k: Key, outcome: Outcome)
    requires SameRequestPart(s, t, k)
    ensures SameToRequest(s, Step(s, StartRequest(k, outcome)), t, Step(t, StartRequest(k, outcome)), k)
  {
    StoredSame(s.requestTasks, t.requestTasks, k);
    StoredSame(s.store.requests, t.store.requests, k);
  }

  lemma StartReviewSame(s: System, t: System, rk: Key, cached: Option<Review>)
    requires SameReviewPart(s, t, rk)
    ensures SameToReview(s, Step(s, StartReview(rk, cached)), t, Step(t, StartReview(rk, cached)), rk)
  {
    StoredSame(s.reviewTasks, t.reviewTasks, rk);
    StoredSame(s.store.seen, t.store.seen, rk);
  }

  lemma SetJobSame(s: System, t: System, k: Key, job: Option<Job>)
    requires SameRequestPart(s, t, k)
    ensures SameToRequest(s, Step(s, SetJob(k, job)), t, Step(t, SetJob(k, job)), k)
  {
  }

  lemma StopSame(s: System, t: System, a: Action)
    requires Alike(s, t, a) && (a.StopRequest? || a.StopReview?)
    ensures DoesTheSame(s, t, a)
  {
  }

  lemma StepDoesTheSame(s: System, t: System, a: Action)
    requires Alike(s, t, a) && !OfTheWorld(a)
    ensures DoesTheSame(s, t, a)
  {
    if a.StepRequest? {
      RequestStepSame(s, t, a.key, a.outcome);
    } else if a.StepReview? {
      ReviewStepSame(s, t, a.key, a.outcome);
    } else if a.CreateRequest? {
      AddRequestSame(s, t, a.key, a.requestedBy, a.spec);
    } else if a.CreateReview? {
      CreateReviewSame(s, t, a.key, a.reviewedBy, a.requestName, a.decision);
    } else if a.StartRequest? {
      StartRequestSame(s, t, a.key, a.outcome);
    } else if a.StartReview? {
      StartReviewSame(s, t, a.key, a.cached);
    } else if a.SetJob? {
      SetJobSame(s, t, a.key, a.job);
    } else {
      StopSame(s, t, a);
    }
  }

  /* ---------- steps commute ---------- */

  lemma SameMap<T>(m: map<Key, T>, n: map<Key, T>)
    requires forall k :: Stored(m, k) == Stored(n, k)
    ensures m == n
  {
    forall k ensures k in m <==> k in n
             ensures k in m ==> m[k] == n[k] {
      StoredSame(m, n, k);
    }
  }

  lemma SameParts(x: System, y: System)
    requires SameWorld(x, y) && (forall k :: SameRequestPart(x, y, k)) && (forall rk :: SameReviewPart(x, y, rk))
    ensures x.store == y.store && x.requestTasks == y.requestTasks && x.reviewTasks == y.reviewTasks
  {
    forall k
      ensures Stored(x.store.requests, k) == Stored(y.store.requests, k) && Stored(x.store.jobs, k) == Stored(y.store.jobs, k)
      ensures Stored(x.store.requestRev, k) == Stored(y.store.requestRev, k) && Stored(x.requestTasks, k) == Stored(y.requestTasks, k)
      ensures Stored(x.store.reviews, k) == Stored(y.store.reviews, k) && Stored(x.store.seen, k) == Stored(y.store.seen, k)
      ensures Stored(x.store.reviewRev, k) == Stored(y.store.reviewRev, k) && Stored(x.reviewTasks, k) == Stored(y.reviewTasks, k)
    {
      assert SameRequestPart(x, y, k) && SameReviewPart(x, y, k);
    }
    SameMap(x.store.requests, y.store.requests);
    SameMap(x.store.jobs, y.store.jobs);
    SameMap(x.store.requestRev, y.store.requestRev);
    SameMap(x.requestTasks, y.requestTasks);
    SameMap(x.store.reviews, y.store.reviews);
    SameMap(x.store.reviewRev, y.store.reviewRev);
    SameMap(x.store.seen, y.store.seen);
    SameMap(x.reviewTasks, y.reviewTasks);
  }

  lemma LogIsAdded(s: System, a: Action)
    ensures Step(s, a).log == s.log + Added(s, a)
  {
    Decisions.LogGrowsByOne(s, a);
  }

  /** `sa` and `sb` are `s` after one step, `x` and `y` after both; `inA` and `inB` say in whose
      footprint the request is. */
  lemma RequestPartsMeet(s: System, sa: System, sb: System, x: System, y: System, inA: bool, inB: bool, k: Key)
    requires !(inA && inB)
    requires if inA then SameRequestPart(sa, y, k) else SameRequestPart(s, sa, k) && SameRequestPart(sb, y, k)
    requires if inB then SameRequestPart(sb, x, k) else SameRequestPart(s, sb, k) && SameRequestPart(sa, x, k)
    ensures SameRequestPart(x, y, k)
  {
  }

  lemma ReviewPartsMeet(s: System, sa: System, sb: System, x: System, y: System, inA: bool, inB: bool, rk: Key)
    requires !(inA && inB)
    requires if inA then SameReviewPart(sa, y, rk) else SameReviewPart(s, sa, rk) && SameReviewPart(sb, y, rk)
    requires if inB then SameReviewPart(sb, x, rk) else SameReviewPart(s, sb, rk) && SameReviewPart(sa, x, rk)
    ensures SameReviewPart(x, y, rk)
  {
  }

  /** Each step does after the other what it does before it, and keeps out of the other's way. */
  lemma BothWays(s: System, a: Action, b: Action)
    requires Apart(s, a, b)
    ensures DoesTheSame(s, Step(s, b), a) && DoesTheSame(s, Step(s, a), b)
    ensures OnlyIn(s, Step(s, a), RequestsOf(s, a), NamesOf(a)) && OnlyIn(s, Step(s, b), RequestsOf(s, b), NamesOf(b))
    ensures OnlyIn(Step(s, a), Step(Step(s, a), b), RequestsOf(s, b), NamesOf(b)) && OnlyIn(Step(s, b), Step(Step(s, b), a), RequestsOf(s, a), NamesOf(a))
  {
    ApartIsAlike(s, a, b);
    ApartIsAlike(s, b, a);
    StepDoesTheSame(s, Step(s, b), a);
    StepDoesTheSame(s, Step(s, a), b);
    StepKeepsOut(s, a);
    StepKeepsOut(s, b);
    StepKeepsOut(Step(s, a), b);
    StepKeepsOut(Step(s, b), a);
  }

  /** Steps whose footprints in `s` are apart commute: the same store, the same reconciles in flight,
      and each has logged the same, one after the other or the other after the one. */
  lemma StepsCommute(s: System, a: Action, b: Action)
    requires Apart(s, a, b)
    ensures var x, y := Step(Step(s, a), b), Step(Step(s, b), a);
            && x.store == y.store && x.requestTasks == y.requestTasks && x.reviewTasks == y.reviewTasks
            && x.log == s.log + Added(s, a) + Added(s, b) && y.log == s.log + Added(s, b) + Added(s, a)
  {
    var x, y := Step(Step(s, a), b), Step(Step(s, b), a);
    BothWays(s, a, b);
    Meet(s, Step(s, a), Step(s, b), x, y, RequestsOf(s, a), RequestsOf(s, b), NamesOf(a), NamesOf(b));
    SameParts(x, y);
    LogIsAdded(s, a);
    LogIsAdded(s, b);
    LogIsAdded(Step(s, a), b);
    LogIsAdded(Step(s, b), a);
  }

  lemma Meet(s: System, sa: System, sb: System, x: System, y: System, ka: set<Key>, kb: set<Key>, ra: set<Key>, rb: set<Key>)
    requires ka !! kb && ra !! rb
    requires OnlyIn(s, sa, ka, ra) && OnlyIn(sb, y, ka, ra) && SameIn(sa, y, ka, ra)
    requires OnlyIn(s, sb, kb, rb) && OnlyIn(sa, x, kb, rb) && SameIn(sb, x, kb, rb)
    ensures SameWorld(x, y) && (forall k :: SameRequestPart(x, y, k)) && (forall rk :: SameReviewPart(x, y, rk))
  {
    forall k ensures SameRequestPart(x, y, k) {
      RequestPartsMeet(s, sa, sb, x, y, k in ka, k in kb, k);
    }
    forall rk ensures SameReviewPart(x, y, rk) {
      ReviewPartsMeet(s, sa, sb, x, y, rk in ra, rk in rb, rk);
    }
  }
}
