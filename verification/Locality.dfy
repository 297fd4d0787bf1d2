/** Requests do not meet each other. Seen from one request, with its reviews and its Job, a run is
    the run of the steps that concern it, as long as the names of its reviews are not used for
    reviews of others; how they are used among the others does not matter. Where names are shared
    requests do meet. `Commuting` has the same from the steps' side. */
module Locality {
  import opened Api
  import opened Protocol
  import opened Invariant
  import opened History

  /* ---------- what belongs to a request ---------- */

  function Only<T>(m: map<Key, T>, k: Key): map<Key, T> {
    map x | x in m && x == k :: m[x]
  }

  /** The entries under the names used for reviews of request `k`. */
  function Aimed<T>(m: map<Key, T>, names: set<Key>): map<Key, T> {
    map rk | rk in m && rk in names :: m[rk]
  }

  predicate Concerns(e: Event, names: set<Key>, k: Key) {
    if AboutRequest(e) then e.key == k else e.key in names
  }

  /** The history of request `k`. */
  function HistoryOf(log: seq<Event>, names: set<Key>, k: Key): seq<Event> {
    if log == [] then []
    else HistoryOf(Init(log), names, k) + if Concerns(Last(log), names, k) then [Last(log)] else []
  }

  /** The part of the system that belongs to request `k`; clock and Deployments are everybody's. */
  function View(s: System, names: set<Key>, k: Key): System {
    var st := s.store;
    System(
      Store(st.clock, st.ttl, Only(st.requests, k), Aimed(st.reviews, names), Only(st.jobs, k), st.deployments,
            Only(st.requestRev, k), Aimed(st.reviewRev, names), Aimed(st.seen, names)),
      Only(s.requestTasks, k), Aimed(s.reviewTasks, names), HistoryOf(s.log, names, k))
  }

  /** The step may be felt by request `k`. */
  predicate Touches(a: Action, names: set<Key>, k: Key) {
    match a
    case SetDeployment(_, _) => true
    case Tick(_) => true
    case CreateReview(rk, _, _, _) => rk in names
    case StartReview(rk, _) => rk in names
    case StepReview(rk, _) => rk in names
    case StopReview(rk) => rk in names
    case _ => a.key == k
  }

  function Restrict(actions: seq<Action>, names: set<Key>, k: Key): seq<Action> {
    if actions == [] then []
    else
      var a := actions[|actions| - 1];
      Restrict(actions[..|actions| - 1], names, k) + if Touches(a, names, k) then [a] else []
  }

  /** The reviews under `names` are of request `k`, and no others are. */
  predicate Targeted(s: System, names: set<Key>, k: Key) {
    && (forall rk | rk in s.store.reviews :: Target(rk, s.store.reviews[rk]) == k <==> rk in names)
    && (forall rk | rk in s.store.seen :: forall v | v in s.store.seen[rk] :: Target(rk, v) == k <==> rk in names)
    && (forall rk | rk in s.reviewTasks :: Target(rk, s.reviewTasks[rk].rv) == k <==> rk in names)
  }

  predicate Aims(a: Action, names: set<Key>, k: Key) {
    a.CreateReview? ==> (Key(a.key.namespace, a.requestName) == k <==> a.key in names)
  }

  /* ---------- views of maps and logs ---------- */

  lemma OnlyPut<T>(m: map<Key, T>, x: Key, v: T, k: Key)
    ensures Only(m[x := v], k) == if x == k then Only(m, k)[x := v] else Only(m, k)
  {
  }

  lemma OnlyDrop<T>(m: map<Key, T>, x: Key, k: Key)
    ensures Only(m - {x}, k) == if x == k then Only(m, k) - {x} else Only(m, k)
  {
  }

  lemma OnlyAt<T>(m: map<Key, T>, k: Key)
    ensures k in Only(m, k) <==> k in m
    ensures k in m ==> Only(m, k)[k] == m[k]
  {
  }

  lemma AimedPut<T>(m: map<Key, T>, rk: Key, v: T, names: set<Key>)
    ensures Aimed(m[rk := v], names) == if rk in names then Aimed(m, names)[rk := v] else Aimed(m, names)
  {
  }

  lemma AimedDrop<T>(m: map<Key, T>, rk: Key, names: set<Key>)
    ensures Aimed(m - {rk}, names) == if rk in names then Aimed(m, names) - {rk} else Aimed(m, names)
  {
  }

  lemma AimedAt<T>(m: map<Key, T>, rk: Key, names: set<Key>)
    ensures rk in Aimed(m, names) <==> rk in m && rk in names
    ensures rk in m && rk in names ==> Aimed(m, names)[rk] == m[rk]
  {
  }

  lemma HistoryGrows(log: seq<Event>, e: Event, names: set<Key>, k: Key)
    ensures HistoryOf(log + [e], names, k) == if Concerns(e, names, k) then HistoryOf(log, names, k) + [e] else HistoryOf(log, names, k)
  {
    assert Init(log + [e]) == log;
  }

  lemma ListedInView(s: System, names: set<Key>, k: Key)
    requires Targeted(s, names, k)
    ensures ReviewsOf(View(s, names, k).store, k) == ReviewsOf(s.store, k)
  {
    forall rk ensures rk in ReviewsOf(s.store, k) <==> rk in ReviewsOf(View(s, names, k).store, k) {
      if rk in s.store.reviews && rk.namespace == k.namespace && s.store.reviews[rk].requestName == k.name {
        assert Target(rk, s.store.reviews[rk]) == k;
      }
    }
  }

  /* ---------- effects, seen from one request ---------- */

  lemma FileRequestInView(s: System, x: Key, jr: JobRequest, e: Event, names: set<Key>, k: Key)
    requires AboutRequest(e) && e.key == x
    ensures View(FileRequest(s, x, jr, e), names, k) ==
              if x == k then FileRequest(View(s, names, k), x, jr, e) else View(s, names, k)
  {
    OnlyPut(s.store.requests, x, jr, k);
    OnlyPut(s.store.requestRev, x, jr.version, k);
    HistoryGrows(s.log, e, names, k);
  }

  lemma PutStatusIs(s: System, x: Key, status: RequestStatus, d: Option<Decider>, was: JobRequest, jr: JobRequest)
    requires Stored(s.store.requests, x) == Some(was) && was.status != status
    requires jr == was.(version := Rev(s.store.requestRev, x) + 1, status := status)
    ensures PutStatus(s, x, status, d) == FileRequest(s, x, jr, RequestWritten(x, was, jr, d))
  {
  }

  lemma PutStatusInView(s: System, x: Key, status: RequestStatus, d: Option<Decider>, names: set<Key>, k: Key)
    requires x in s.store.requests
    ensures x == k ==> x in View(s, names, k).store.requests
    ensures View(PutStatus(s, x, status, d), names, k) ==
              if x == k then PutStatus(View(s, names, k), x, status, d) else View(s, names, k)
  {
    OnlyAt(s.store.requests, x);
    OnlyAt(s.store.requestRev, x);
    var was := s.store.requests[x];
    if was.status != status {
      var jr := was.(version := Rev(s.store.requestRev, x) + 1, status := status);
      PutStatusIs(s, x, status, d, was, jr);
      FileRequestInView(s, x, jr, RequestWritten(x, was, jr, d), names, k);
      if x == k {
        PutStatusIs(View(s, names, k), x, status, d, was, jr);
      }
    }
  }

  lemma UpdateInView(s: System, x: Key, jr: JobRequest, status: RequestStatus, d: Option<Decider>, outcome: Outcome,
                     names: set<Key>, k: Key)
    ensures View(AfterUpdate(s, x, jr, status, d, outcome), names, k) ==
              if x == k then AfterUpdate(View(s, names, k), x, jr, status, d, outcome) else View(s, names, k)
  {
    OnlyAt(s.store.requests, k);
    if outcome != Fails && Fresh(s.store, x, jr) {
      PutStatusInView(s, x, status, d, names, k);
    }
  }

  lemma AddRequestIs(s: System, x: Key, requestedBy: Option<string>, spec: RequestSpec, jr: JobRequest)
    requires x !in s.store.requests
    requires var v := Rev(s.store.requestRev, x) + 1; jr == JobRequest(v, v, s.store.clock, requestedBy, spec, BLANK_STATUS)
    ensures AddRequest(s, x, requestedBy, spec) == FileRequest(s, x, jr, RequestCreated(x, jr))
  {
  }

  lemma AddRequestInView(s: System, x: Key, requestedBy: Option<string>, spec: RequestSpec, names: set<Key>, k: Key)
    ensures View(AddRequest(s, x, requestedBy, spec), names, k) ==
              if x == k then AddRequest(View(s, names, k), x, requestedBy, spec) else View(s, names, k)
  {
    OnlyAt(s.store.requests, x);
    OnlyAt(s.store.requestRev, x);
    if x !in s.store.requests {
      var v := Rev(s.store.requestRev, x) + 1;
      var jr := JobRequest(v, v, s.store.clock, requestedBy, spec, BLANK_STATUS);
      AddRequestIs(s, x, requestedBy, spec, jr);
      FileRequestInView(s, x, jr, RequestCreated(x, jr), names, k);
      if x == k {
        AddRequestIs(View(s, names, k), x, requestedBy, spec, jr);
      }
    }
  }

  lemma DeleteRequestInView(s: System, x: Key, names: set<Key>, k: Key)
    ensures View(DeleteRequest(s, x), names, k) == if x == k then DeleteRequest(View(s, names, k), x) else View(s, names, k)
  {
    OnlyAt(s.store.requests, k);
    if x in s.store.requests {
      OnlyDrop(s.store.requests, x, k);
      HistoryGrows(s.log, RequestDeleted(x, s.store.requests[x]), names, k);
    }
  }

  lemma MakeJobInView(s: System, x: Key, jr: JobRequest, job: Job, names: set<Key>, k: Key)
    ensures View(MakeJob(s, x, jr, job), names, k) == if x == k then MakeJob(View(s, names, k), x, jr, job) else View(s, names, k)
  {
    OnlyPut(s.store.jobs, x, job, k);
    HistoryGrows(s.log, JobCreated(x, jr), names, k);
  }

  lemma RequestEffectInView(s: System, x: Key, task: RequestTask, outcome: Outcome, names: set<Key>, k: Key)
    ensures View(RequestEffect(s, x, task, outcome), names, k) ==
              if x == k then RequestEffect(View(s, names, k), x, task, outcome) else View(s, names, k)
  {
    if task.Deleting? {
      DeleteRequestInView(s, x, names, k);
    } else if task.CreatingJob? {
      OnlyAt(s.store.jobs, k);
      MakeJobInView(s, x, task.jr, task.job, names, k);
    } else if task.Writing? {
      UpdateInView(s, x, task.jr, task.status, None, outcome, names, k);
    }
  }

  lemma RequestNextInView(s: System, task: RequestTask, outcome: Outcome, names: set<Key>, k: Key)
    requires Targeted(s, names, k)
    ensures RequestNext(View(s, names, k), k, task, outcome) == RequestNext(s, k, task, outcome)
  {
    OnlyAt(s.store.requests, k);
    OnlyAt(s.store.requestRev, k);
    OnlyAt(s.store.jobs, k);
    ListedInView(s, names, k);
  }

  lemma RequestStepInView(s: System, x: Key, outcome: Outcome, names: set<Key>, k: Key)
    requires Targeted(s, names, k) && x in s.requestTasks
    ensures View(AdvanceRequest(s, x, s.requestTasks[x], outcome), names, k) ==
              if x == k then AdvanceRequest(View(s, names, k), x, s.requestTasks[x], outcome) else View(s, names, k)
  {
    var task := s.requestTasks[x];
    RequestEffectInView(s, x, task, outcome, names, k);
    RequestEffectLocal(s, x, task, outcome);
    if x == k {
      RequestNextInView(s, task, outcome, names, k);
      RequestEffectLocal(View(s, names, k), x, task, outcome);
    }
    var next := RequestNext(s, x, task, outcome);
    if next.Some? {
      OnlyPut(s.requestTasks, x, next.value, k);
    } else {
      OnlyDrop(s.requestTasks, x, k);
    }
  }

  lemma FileReviewInView(s: System, rk: Key, rv: Review, e: Event, names: set<Key>, k: Key)
    requires AboutReview(e) && e.key == rk
    ensures View(FileReview(s, rk, rv, e), names, k) ==
              if rk in names then FileReview(View(s, names, k), rk, rv, e) else View(s, names, k)
  {
    AimedPut(s.store.reviews, rk, rv, names);
    AimedPut(s.store.reviewRev, rk, rv.version, names);
    AimedPut(s.store.seen, rk, SeenOf(s.store.seen, rk) + {rv}, names);
    HistoryGrows(s.log, e, names, k);
  }

  lemma NewFormInView(s: System, rk: Key, to: ReviewState, was: Review, rv: Review, names: set<Key>, k: Key)
    requires Stored(s.store.reviews, rk) == Some(was) && was.state != to
    requires rv == was.(version := Rev(s.store.reviewRev, rk) + 1, state := to)
    ensures View(PutReviewState(s, rk, to), names, k) ==
              if rk in names then FileReview(View(s, names, k), rk, rv, ReviewWritten(rk, was, rv)) else View(s, names, k)
  {
    PutReviewStateIs(s, rk, to, was, rv);
    FileReviewInView(s, rk, rv, ReviewWritten(rk, was, rv), names, k);
  }

  lemma PutReviewStateFelt(s: System, rk: Key, to: ReviewState, names: set<Key>, k: Key)
    requires rk in s.store.reviews && rk in names
    ensures rk in View(s, names, k).store.reviews
    ensures View(PutReviewState(s, rk, to), names, k) == PutReviewState(View(s, names, k), rk, to)
  {
    AimedAt(s.store.reviews, rk, names);
    AimedAt(s.store.reviewRev, rk, names);
    var was := s.store.reviews[rk];
    if was.state != to {
      var rv := was.(version := Rev(s.store.reviewRev, rk) + 1, state := to);
      NewFormInView(s, rk, to, was, rv, names, k);
      PutReviewStateIs(View(s, names, k), rk, to, was, rv);
    }
  }

  lemma PutReviewStateUnfelt(s: System, rk: Key, to: ReviewState, names: set<Key>, k: Key)
    requires rk in s.store.reviews && rk !in names
    ensures View(PutReviewState(s, rk, to), names, k) == View(s, names, k)
  {
    var was := s.store.reviews[rk];
    if was.state != to {
      NewFormInView(s, rk, to, was, was.(version := Rev(s.store.reviewRev, rk) + 1, state := to), names, k);
    }
  }

  lemma AddReviewIs(s: System, rk: Key, reviewedBy: Option<string>, requestName: string, decision: Decision, rv: Review)
    requires rk !in s.store.reviews
    requires var v := Rev(s.store.reviewRev, rk) + 1;
             rv == Review(v, v, s.store.clock, reviewedBy, requestName, decision, Undecided)
    ensures AddReview(s, rk, reviewedBy, requestName, decision) == FileReview(s, rk, rv, ReviewCreated(rk, rv))
  {
  }

  lemma AddReviewInView(s: System, rk: Key, reviewedBy: Option<string>, requestName: string, decision: Decision, names: set<Key>, k: Key)
    ensures View(AddReview(s, rk, reviewedBy, requestName, decision), names, k) ==
              if rk in names then AddReview(View(s, names, k), rk, reviewedBy, requestName, decision) else View(s, names, k)
  {
    AimedAt(s.store.reviews, rk, names);
    AimedAt(s.store.reviewRev, rk, names);
    if rk !in s.store.reviews {
      var v := Rev(s.store.reviewRev, rk) + 1;
      var rv := Review(v, v, s.store.clock, reviewedBy, requestName, decision, Undecided);
      AddReviewIs(s, rk, reviewedBy, requestName, decision, rv);
      FileReviewInView(s, rk, rv, ReviewCreated(rk, rv), names, k);
      if rk in names {
        AddReviewIs(View(s, names, k), rk, reviewedBy, requestName, decision, rv);
      }
    }
  }

  lemma DeleteReviewInView(s: System, rk: Key, names: set<Key>, k: Key)
    ensures View(DeleteReview(s, rk), names, k) ==
              if rk in names then DeleteReview(View(s, names, k), rk) else View(s, names, k)
  {
    if rk in s.store.reviews {
      AimedDrop(s.store.reviews, rk, names);
      HistoryGrows(s.log, ReviewDeleted(rk, s.store.reviews[rk]), names, k);
    }
  }

  lemma ReviewEffectInView(s: System, rk: Key, task: ReviewTask, outcome: Outcome, names: set<Key>, k: Key)
    requires Target(rk, task.rv) == k <==> rk in names
    ensures View(ReviewEffect(s, rk, task, outcome), names, k) ==
              if rk in names then ReviewEffect(View(s, names, k), rk, task, outcome) else View(s, names, k)
  {
    match task
    case DeletingReview(_) =>
      DeleteReviewInView(s, rk, names, k);
    case Committing(rv, jr) =>
      UpdateInView(s, Target(rk, rv), jr, DecidedStatus(rk, rv, jr), Some(Decider(rk, rv)), outcome, names, k);
    case WritingReview(rv, to) =>
      AimedAt(s.store.reviews, rk, names);
      if rk in s.store.reviews {
        if rk in names {
          PutReviewStateFelt(s, rk, to, names, k);
        } else {
          PutReviewStateUnfelt(s, rk, to, names, k);
        }
      }
    case _ =>
  }

  lemma ReviewStepInView(s: System, rk: Key, outcome: Outcome, names: set<Key>, k: Key)
    requires Targeted(s, names, k) && rk in s.reviewTasks
    ensures View(AdvanceReview(s, rk, s.reviewTasks[rk], outcome), names, k) ==
              if rk in names then AdvanceReview(View(s, names, k), rk, s.reviewTasks[rk], outcome) else View(s, names, k)
  {
    var task := s.reviewTasks[rk];
    ReviewEffectInView(s, rk, task, outcome, names, k);
    ReviewEffectLocal(s, rk, task, outcome);
    var next := ReviewNext(s.store, rk, task, outcome);
    if rk in names {
      OnlyAt(s.store.requests, k);
      assert ReviewNext(View(s, names, k).store, rk, task, outcome) == next;
      ReviewEffectLocal(View(s, names, k), rk, task, outcome);
    }
    if next.Some? {
      AimedPut(s.reviewTasks, rk, next.value, names);
    } else {
      AimedDrop(s.reviewTasks, rk, names);
    }
  }

  /* ---------- steps and runs, seen from one request ---------- */

  lemma BeginRequestInView(s: System, x: Key, outcome: Outcome, names: set<Key>, k: Key)
    ensures View(BeginRequest(s, x, outcome), names, k) ==
              if x == k then BeginRequest(View(s, names, k), x, outcome) else View(s, names, k)
  {
    OnlyAt(s.store.requests, k);
    if x in s.store.requests {
      OnlyPut(s.requestTasks, x, Fetched(s.store.requests[x]), k);
    }
  }

  lemma BeginReviewInView(s: System, rk: Key, cached: Option<Review>, names: set<Key>, k: Key)
    ensures View(BeginReview(s, rk, cached), names, k) ==
              if rk in names then BeginReview(View(s, names, k), rk, cached) else View(s, names, k)
  {
    if cached.Some? {
      AimedPut(s.reviewTasks, rk, FetchedReview(cached.value), names);
    }
  }

  lemma SetJobInView(s: System, x: Key, job: Option<Job>, names: set<Key>, k: Key)
    ensures View(Step(s, SetJob(x, job)), names, k) ==
              if x == k then Step(View(s, names, k), SetJob(x, job)) else View(s, names, k)
  {
    if job.Some? {
      OnlyPut(s.store.jobs, x, job.value, k);
    } else {
      OnlyDrop(s.store.jobs, x, k);
    }
  }

  lemma WorldInView(s: System, a: Action, names: set<Key>, k: Key)
    requires a.SetJob? || a.SetDeployment? || a.Tick? || a.StopRequest? || a.StopReview?
    ensures View(Step(s, a), names, k) == if Touches(a, names, k) then Step(View(s, names, k), a) else View(s, names, k)
  {
    match a
    case SetJob(x, job) =>
      SetJobInView(s, x, job, names, k);
    case StopRequest(x) =>
      OnlyDrop(s.requestTasks, x, k);
    case StopReview(rk) =>
      AimedDrop(s.reviewTasks, rk, names);
    case _ =>
  }

  /** A step that concerns the request is the same step seen from it; any other is not seen. */
  lemma StepInView(s: System, a: Action, names: set<Key>, k: Key)
    requires Targeted(s, names, k) && Aims(a, names, k)
    ensures View(Step(s, a), names, k) == if Touches(a, names, k) then Step(View(s, names, k), a) else View(s, names, k)
  {
    if a.StepRequest? {
      OnlyAt(s.requestTasks, k);
      if a.key in s.requestTasks {
        RequestStepInView(s, a.key, a.outcome, names, k);
      }
    } else if a.StepReview? {
      if a.key in s.reviewTasks {
        ReviewStepInView(s, a.key, a.outcome, names, k);
      }
    } else if a.StartRequest? {
      OnlyAt(s.requestTasks, k);
      BeginRequestInView(s, a.key, a.outcome, names, k);
    } else if a.StartReview? {
      BeginReviewInView(s, a.key, a.cached, names, k);
    } else if a.CreateRequest? {
      AddRequestInView(s, a.key, a.requestedBy, a.spec, names, k);
    } else if a.CreateReview? {
      AddReviewInView(s, a.key, a.reviewedBy, a.requestName, a.decision, names, k);
    } else {
      WorldInView(s, a, names, k);
    }
  }

  lemma ReviewEffectTargeted(s: System, rk: Key, task: ReviewTask, outcome: Outcome, names: set<Key>, k: Key)
    requires Targeted(s, names, k)
    ensures Targeted(ReviewEffect(s, rk, task, outcome), names, k)
  {
  }

  lemma RequestEffectTargeted(s: System, x: Key, task: RequestTask, outcome: Outcome, names: set<Key>, k: Key)
    requires Targeted(s, names, k)
    ensures Targeted(RequestEffect(s, x, task, outcome), names, k)
  {
  }

  lemma AddReviewTargeted(s: System, rk: Key, reviewedBy: Option<string>, requestName: string, decision: Decision, names: set<Key>, k: Key)
    requires Targeted(s, names, k) && (Key(rk.namespace, requestName) == k <==> rk in names)
    ensures Targeted(AddReview(s, rk, reviewedBy, requestName, decision), names, k)
  {
  }

  lemma StepKeepsTargeted(s: System, a: Action, names: set<Key>, k: Key)
    requires Targeted(s, names, k) && Aims(a, names, k)
    ensures Targeted(Step(s, a), names, k)
  {
    if a.CreateReview? {
      AddReviewTargeted(s, a.key, a.reviewedBy, a.requestName, a.decision, names, k);
    }
    if a.StepRequest? && a.key in s.requestTasks {
      RequestEffectTargeted(s, a.key, s.requestTasks[a.key], a.outcome, names, k);
    } else if a.StepReview? && a.key in s.reviewTasks {
      ReviewEffectTargeted(s, a.key, s.reviewTasks[a.key], a.outcome, names, k);
      ReviewEffectLocal(s, a.key, s.reviewTasks[a.key], a.outcome);
      ReviewNextSameReview(s.store, a.key, s.reviewTasks[a.key], a.outcome);
    }
  }

  lemma {:induction false} RunKeepsTargeted(s: System, actions: seq<Action>, names: set<Key>, k: Key)
    requires Targeted(s, names, k) && forall a | a in actions :: Aims(a, names, k)
    ensures Targeted(Run(s, actions), names, k)
    decreases |actions|
  {
    if actions != [] {
      RunKeepsTargeted(s, actions[..|actions| - 1], names, k);
      StepKeepsTargeted(Run(s, actions[..|actions| - 1]), actions[|actions| - 1], names, k);
    }
  }

  /** The last action of a run, when it is kept and when it is not. */
  lemma RestrictedRun(s: System, actions: seq<Action>, names: set<Key>, k: Key)
    requires actions != []
    ensures var a, before := actions[|actions| - 1], Run(s, Restrict(actions[..|actions| - 1], names, k));
            Run(s, Restrict(actions, names, k)) == if Touches(a, names, k) then Step(before, a) else before
  {
    var r := Restrict(actions[..|actions| - 1], names, k);
    assert r + [] == r;
    assert (r + [actions[|actions| - 1]])[..|r|] == r;
  }

  /** Locality: seen from one request, a run is the run of the steps that concern it. Its history,
      its reviews and its Job do not depend on anything else that goes on. */
  lemma {:induction false} RunInView(s: System, actions: seq<Action>, names: set<Key>, k: Key)
    requires Targeted(s, names, k) && forall a | a in actions :: Aims(a, names, k)
    ensures View(Run(s, actions), names, k) == Run(View(s, names, k), Restrict(actions, names, k))
    decreases |actions|
  {
    if actions != [] {
      var prefix, a := actions[..|actions| - 1], actions[|actions| - 1];
      assert Aims(a, names, k);
      RunInView(s, prefix, names, k);
      RunKeepsTargeted(s, prefix, names, k);
      StepInView(Run(s, prefix), a, names, k);
      RestrictedRun(View(s, names, k), actions, names, k);
    }
  }

  /* ---------- where requests meet ---------- */

  /** A name can be used once at a time: a review of one request keeps a review of another, under the
      same name, from being created. */
  lemma NamesMeet(s: System, rk: Key, mineBy: Option<string>, theirBy: Option<string>, name: string, otherName: string, d: Decision, e: Decision)
    requires rk !in s.store.reviews && name != otherName
    ensures var k := Key(rk.namespace, name);
            var mine, theirs := CreateReview(rk, mineBy, name, d), CreateReview(rk, theirBy, otherName, e);
            rk in ReviewsOf(Step(s, mine).store, k) && rk !in ReviewsOf(Step(Step(s, theirs), mine).store, k)
  {
  }
}
