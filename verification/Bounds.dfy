/** Rank: every status write climbs but the fallback to Pending and the second outcome of a Job. So a
    run makes at most four writes per request, one per review, three more for each fallback and one for
    each second outcome; and none of these where lists succeed and Jobs end one way only. */
module Bounds {
  import opened Api
  import opened Protocol
  import opened History
  import opened Invariant
  import opened Decisions

  function Rank(state: RequestState): nat {
    match state
    case Unset => 0
    case Pending => 1
    case Approved => 2
    case Rejected => 2
    case Started => 3
    case Unlisted(_) => 0
    case _ => 4
  }

  predicate Climbs(e: Event) {
    e.RequestWritten? ==> Rank(e.before.status.state) < Rank(e.after.status.state)
  }

  lemma EdgeClimbs(from: RequestState, to: RequestState)
    requires OperatorEdge(from, to) && Rank(to) <= Rank(from)
    ensures || (to == Pending && (from == Approved || from == Rejected || from == Started))
            || (from == Complete && to == Failed) || (from == Failed && to == Complete)
  {
  }

  lemma TransitionClimbs(log: seq<Event>, k: Key, before: JobRequest, after: RequestStatus, decider: Option<Decider>)
    requires Transition(log, k, before, after, decider) && Rank(after.state) <= Rank(before.status.state)
    ensures decider.None? && OperatorEdge(before.status.state, after.state)
    ensures var from, to := before.status.state, after.state;
            || (to == Pending && (from == Approved || from == Rejected || from == Started))
            || (from == Complete && to == Failed) || (from == Failed && to == Complete)
  {
    if decider.None? {
      EdgeClimbs(before.status.state, after.state);
    }
  }

  /** The only write that does not climb is the operator's return to Pending, or the second of
      two outcomes of one Job. */
  lemma OnlyFallbackDescends(log: seq<Event>, i: nat)
    requires Atomic(log) && i < |log| && !Climbs(log[i])
    ensures log[i].decider.None?
    ensures var from, to := log[i].before.status.state, log[i].after.status.state;
            || (to == Pending && (from == Approved || from == Rejected || from == Started))
            || (from == Complete && to == Failed) || (from == Failed && to == Complete)
  {
    AllowedAt(log, i);
    var e := log[i];
    TransitionClimbs(log[..i], e.key, e.before, e.after.status, e.decider);
  }

  function RequestWrites(log: seq<Event>): nat {
    if log == [] then 0 else RequestWrites(Init(log)) + if Last(log).RequestWritten? then 1 else 0
  }

  function ReviewWrites(log: seq<Event>): nat {
    if log == [] then 0 else ReviewWrites(Init(log)) + if Last(log).ReviewWritten? then 1 else 0
  }

  function RequestCreations(log: seq<Event>): nat {
    if log == [] then 0 else RequestCreations(Init(log)) + if Last(log).RequestCreated? then 1 else 0
  }

  function ReviewCreations(log: seq<Event>): nat {
    if log == [] then 0 else ReviewCreations(Init(log)) + if Last(log).ReviewCreated? then 1 else 0
  }

  /** The decided requests sent back to Pending. */
  function Returns(log: seq<Event>): nat {
    if log == [] then 0
    else Returns(Init(log)) + if !Climbs(Last(log)) && Last(log).after.status.state == Pending then 1 else 0
  }

  /** The outcomes written over another. */
  function SecondOutcomes(log: seq<Event>): nat {
    if log == [] then 0
    else SecondOutcomes(Init(log)) + if !Climbs(Last(log)) && Last(log).after.status.state != Pending then 1 else 0
  }

  function Below(m: map<Key, JobRequest>, level: nat): set<Key> {
    set k | k in m && Rank(m[k].status.state) < level
  }

  /** How far the stored requests may still climb, all together. */
  function Room(m: map<Key, JobRequest>): nat {
    |Below(m, 1)| + |Below(m, 2)| + |Below(m, 3)| + |Below(m, 4)|
  }

  function Waiting(m: map<Key, Review>): set<Key> {
    set rk | rk in m && m[rk].state == Undecided
  }

  predicate AllClimb(log: seq<Event>) {
    forall e | e in log :: Climbs(e)
  }

  lemma AllClimbAppended(log: seq<Event>, e: Event)
    ensures AllClimb(log + [e]) <==> AllClimb(log) && Climbs(e)
  {
    assert e in log + [e];
    assert forall x | x in log :: x in log + [e];
  }

  lemma BelowPut(m: map<Key, JobRequest>, k: Key, jr: JobRequest, level: nat)
    requires k !in m
    ensures |Below(m[k := jr], level)| == |Below(m, level)| + if Rank(jr.status.state) < level then 1 else 0
  {
    assert Below(m[k := jr], level) == Below(m, level) + if Rank(jr.status.state) < level then {k} else {};
  }

  lemma RoomPut(m: map<Key, JobRequest>, k: Key, jr: JobRequest)
    requires k !in m
    ensures Room(m[k := jr]) == Room(m) + 4 - Rank(jr.status.state)
  {
    BelowPut(m, k, jr, 1);
    BelowPut(m, k, jr, 2);
    BelowPut(m, k, jr, 3);
    BelowPut(m, k, jr, 4);
  }

  /** The room of a stored request, and of all others. */
  lemma RoomOf(m: map<Key, JobRequest>, k: Key)
    requires k in m
    ensures Room(m) == Room(m - {k}) + 4 - Rank(m[k].status.state)
  {
    assert m == (m - {k})[k := m[k]];
    RoomPut(m - {k}, k, m[k]);
  }

  lemma RoomWritten(m: map<Key, JobRequest>, k: Key, jr: JobRequest)
    requires k in m
    ensures Room(m[k := jr]) + Rank(jr.status.state) == Room(m) + Rank(m[k].status.state)
  {
    RoomOf(m, k);
    assert m[k := jr] == (m - {k})[k := jr];
    RoomPut(m - {k}, k, jr);
  }

  /** A write takes room, or gives back what it takes and at most two more. */
  lemma WriteTakesRoom(log: seq<Event>, e: Event)
    requires Allowed(log, e) && e.RequestWritten?
    ensures var m, m' := Requests(log), ApplyToRequests(Requests(log), e);
            1 + Room(m') <= Room(m) + if Climbs(e) then 0 else if e.after.status.state == Pending then 3 else 1
  {
    RoomWritten(Requests(log), e.key, e.after);
    if !Climbs(e) {
      TransitionClimbs(log, e.key, e.before, e.after.status, e.decider);
    }
  }

  /** In every history: the writes made and the room left are no more than the room given, four for each
      request created, and what the writes that do not climb give back. */
  lemma {:induction false} RoomBound(log: seq<Event>)
    requires Atomic(log)
    ensures RequestWrites(log) + Room(Requests(log)) <= 4 * RequestCreations(log) + 3 * Returns(log) + SecondOutcomes(log)
  {
    if log != [] {
      var e := Last(log);
      RoomBound(Init(log));
      if e.RequestWritten? {
        WriteTakesRoom(Init(log), e);
      } else if e.RequestCreated? {
        RoomPut(Requests(Init(log)), e.key, e.request);
      } else if e.RequestDeleted? {
        RoomOf(Requests(Init(log)), e.key);
      }
    }
  }

  lemma {:induction false} NoneGivenBack(log: seq<Event>)
    requires AllClimb(log)
    ensures Returns(log) == 0 && SecondOutcomes(log) == 0
  {
    if log != [] {
      assert Last(log) in log;
      NoneGivenBack(Init(log));
    }
  }

  lemma WaitingStep(log: seq<Event>, e: Event)
    requires Allowed(log, e)
    ensures var m, m' := Reviews(log), ApplyToReviews(Reviews(log), e);
            (if e.ReviewWritten? then 1 else 0) + |Waiting(m')| <= |Waiting(m)| + if e.ReviewCreated? then 1 else 0
  {
    var m, m' := Reviews(log), ApplyToReviews(Reviews(log), e);
    if e.ReviewCreated? {
      assert Waiting(m') == Waiting(m) + {e.key};
    } else if e.ReviewWritten? || e.ReviewDeleted? {
      assert Waiting(m') == Waiting(m) - {e.key};
    }
  }

  lemma {:induction false} ReviewBound(log: seq<Event>)
    requires Atomic(log)
    ensures ReviewWrites(log) + |Waiting(Reviews(log))| <= ReviewCreations(log)
  {
    if log != [] {
      ReviewBound(Init(log));
      WaitingStep(Init(log), Last(log));
    }
  }

  lemma WritesBounded(log: seq<Event>)
    requires Atomic(log) && AllClimb(log)
    ensures RequestWrites(log) + ReviewWrites(log) <= 4 * RequestCreations(log) + ReviewCreations(log)
  {
    RoomBound(log);
    NoneGivenBack(log);
    ReviewBound(log);
  }

  /** Every run: four writes for each request created and one for each review, three more for each return
      to Pending and one for each second outcome. */
  lemma RunBounded(s: System, actions: seq<Action>)
    requires Initial(s)
    ensures var log := Run(s, actions).log;
            RequestWrites(log) + ReviewWrites(log)
            <= 4 * RequestCreations(log) + ReviewCreations(log) + 3 * Returns(log) + SecondOutcomes(log)
  {
    RunIsAtomic(s, actions);
    RoomBound(Run(s, actions).log);
    ReviewBound(Run(s, actions).log);
  }

  /* ---------- which runs climb ---------- */

  /** The conditions do not report both outcomes. */
  predicate OneOutcome(conditions: seq<Condition>) {
    !((exists c | c in conditions :: c.isTrue && c.kind == JobComplete) && (exists c | c in conditions :: c.isTrue && c.kind == JobFailed))
  }

  lemma {:induction false} FinalStatesFrom(conditions: seq<Condition>)
    ensures Complete in FinalStates(conditions) <==> exists c | c in conditions :: c.isTrue && c.kind == JobComplete
    ensures Failed in FinalStates(conditions) <==> exists c | c in conditions :: c.isTrue && c.kind == JobFailed
    ensures Finals(FinalStates(conditions))
  {
    if conditions != [] {
      FinalStatesFrom(conditions[1..]);
      assert conditions == [conditions[0]] + conditions[1..];
    }
  }

  predicate Constant(states: seq<RequestState>) {
    forall i, j | 0 <= i < |states| && 0 <= j < |states| :: states[i] == states[j]
  }

  /** The loop writes a single state exactly when the conditions do not report both outcomes. */
  lemma LoopWritesOneState(conditions: seq<Condition>)
    ensures Constant(FinalStates(conditions)) <==> OneOutcome(conditions)
  {
    FinalStatesFrom(conditions);
    var states := FinalStates(conditions);
    if Complete in states && Failed in states {
      var i :| 0 <= i < |states| && states[i] == Complete;
      var j :| 0 <= j < |states| && states[j] == Failed;
      assert states[i] != states[j];
    }
  }

  /** What is in flight will not descend. */
  predicate Climbing(task: RequestTask) {
    match task
    case FindingReviews(_, job) => OneOutcome(job.conditions)
    case LookingUpJob(_, job) => OneOutcome(job.conditions)
    case CreatingJob(_, job) => OneOutcome(job.conditions)
    case Rereading(_, conditions) => OneOutcome(conditions)
    case Writing(jr, status, rest) =>
      && (status.state == Pending ==> jr.status.state == Unset || jr.status.state == Pending)
      && (status.state == Complete || status.state == Failed ==>
            (jr.status.state == Started || jr.status.state == status.state) && forall i | 0 <= i < |rest| :: rest[i] == status.state)
    case _ => true
  }

  predicate OneOutcomeEach(jobs: map<Key, Job>) {
    forall k | k in jobs :: OneOutcome(jobs[k].conditions)
  }

  predicate Steady(s: System) {
    OneOutcomeEach(s.store.jobs) && forall k | k in s.requestTasks :: Climbing(s.requestTasks[k])
  }

  /** Jobs end one way, and a request that was decided finds its reviews. */
  predicate SteadyAction(s: System, a: Action) {
    match a
    case SetJob(_, Some(job)) => OneOutcome(job.conditions)
    case StepRequest(k, outcome) =>
      k in s.requestTasks && s.requestTasks[k].FindingReviews?
      && s.requestTasks[k].jr.status.state != Unset && s.requestTasks[k].jr.status.state != Pending
      ==> outcome == Ok && ReviewsOf(s.store, k) != {}
    case _ => true
  }

  predicate SteadyRun(s: System, actions: seq<Action>) {
    actions != [] ==>
      SteadyRun(s, actions[..|actions| - 1]) && SteadyAction(Run(s, actions[..|actions| - 1]), actions[|actions| - 1])
  }

  lemma NextClimbs(s: System, k: Key, task: RequestTask, outcome: Outcome)
    requires Holds(Stored(s.store.requests, k), k, task) && Climbing(task) && !task.Writing?
    requires k in s.store.jobs ==> OneOutcome(s.store.jobs[k].conditions)
    requires task.FindingReviews? && task.jr.status.state != Unset && task.jr.status.state != Pending
             ==> outcome == Ok && ReviewsOf(s.store, k) != {}
    ensures RequestNext(s, k, task, outcome).Some? ==> Climbing(RequestNext(s, k, task, outcome).value)
  {
    match task
    case Rereading(_, conditions) =>
      FinalStatesFrom(conditions);
      LoopWritesOneState(conditions);
    case _ =>
  }

  /** A climbing update that changes anything climbs. */
  lemma ClimbingUpdate(k: Key, jr: JobRequest, status: RequestStatus, rest: seq<RequestState>)
    requires Update(k, jr, status, rest) && Climbing(Writing(jr, status, rest)) && status != jr.status
    ensures Rank(jr.status.state) < Rank(status.state)
  {
  }

  lemma UpdateClimbs(s: System, k: Key, jr: JobRequest, status: RequestStatus, rest: seq<RequestState>, outcome: Outcome)
    requires Recorded(s) && Holds(Stored(s.store.requests, k), k, Writing(jr, status, rest))
    requires Climbing(Writing(jr, status, rest)) && AllClimb(s.log)
    ensures AllClimb(AfterUpdate(s, k, jr, status, None, outcome).log)
    ensures AfterUpdate(s, k, jr, status, None, outcome).store.jobs == s.store.jobs
  {
    if Fresh(s.store, k, jr) {
      UpdateIsTransition(s, k, jr, status, rest);
      if status != jr.status {
        var now := jr.(version := Rev(s.store.requestRev, k) + 1, status := status);
        ClimbingUpdate(k, jr, status, rest);
        AllClimbAppended(s.log, RequestWritten(k, jr, now, None));
      }
    }
  }

  /** The loop goes on climbing. */
  lemma LoopClimbs(s: System, k: Key, jr: JobRequest, status: RequestStatus, rest: seq<RequestState>, outcome: Outcome)
    requires Update(k, jr, status, rest) && Climbing(Writing(jr, status, rest))
    ensures var next := RequestNext(s, k, Writing(jr, status, rest), outcome); next.Some? ==> Climbing(next.value)
  {
    assert rest != [] ==> rest[0] == status.state;
  }

  lemma RequestStepClimbs(s: System, k: Key, task: RequestTask, outcome: Outcome)
    requires Recorded(s) && Holds(Stored(s.store.requests, k), k, task) && Climbing(task)
    requires OneOutcomeEach(s.store.jobs) && AllClimb(s.log)
    requires task.FindingReviews? && task.jr.status.state != Unset && task.jr.status.state != Pending
             ==> outcome == Ok && ReviewsOf(s.store, k) != {}
    ensures RequestNext(s, k, task, outcome).Some? ==> Climbing(RequestNext(s, k, task, outcome).value)
    ensures var s' := RequestEffect(s, k, task, outcome); OneOutcomeEach(s'.store.jobs) && AllClimb(s'.log)
  {
    if task.Writing? {
      UpdateClimbs(s, k, task.jr, task.status, task.rest, outcome);
      LoopClimbs(s, k, task.jr, task.status, task.rest, outcome);
    } else {
      NextClimbs(s, k, task, outcome);
    }
  }

  lemma ReviewStepClimbs(s: System, rk: Key, task: ReviewTask, outcome: Outcome)
    requires Recorded(s) && HoldsReview(s.store, rk, task) && AllClimb(s.log)
    ensures var s' := ReviewEffect(s, rk, task, outcome); s'.store.jobs == s.store.jobs && AllClimb(s'.log)
  {
    if task.Committing? && Fresh(s.store, Target(rk, task.rv), task.jr) {
      DecisionClimbs(s, rk, task.rv, task.jr);
    }
  }

  lemma DecisionClimbs(s: System, rk: Key, rv: Review, jr: JobRequest)
    requires Recorded(s) && HoldsReview(s.store, rk, Committing(rv, jr)) && AllClimb(s.log)
    requires Fresh(s.store, Target(rk, rv), jr)
    ensures AllClimb(PutStatus(s, Target(rk, rv), DecidedStatus(rk, rv, jr), Some(Decider(rk, rv))).log)
  {
    var k := Target(rk, rv);
    DecisionIsTransition(s, rk, rv, jr);
    var now := jr.(version := Rev(s.store.requestRev, k) + 1, status := DecidedStatus(rk, rv, jr));
    PutStatusAdds(s, k, DecidedStatus(rk, rv, jr), Some(Decider(rk, rv)));
    AllClimbAppended(s.log, RequestWritten(k, jr, now, Some(Decider(rk, rv))));
  }

  lemma StepClimbs(s: System, a: Action)
    requires Inv(s) && Steady(s) && SteadyAction(s, a) && AllClimb(s.log)
    ensures Steady(Step(s, a)) && AllClimb(Step(s, a).log)
  {
    if a.StepRequest? && a.key in s.requestTasks {
      RequestStepClimbs(s, a.key, s.requestTasks[a.key], a.outcome);
      RequestEffectLocal(s, a.key, s.requestTasks[a.key], a.outcome);
    } else if a.StepReview? && a.key in s.reviewTasks {
      ReviewStepClimbs(s, a.key, s.reviewTasks[a.key], a.outcome);
      ReviewEffectLocal(s, a.key, s.reviewTasks[a.key], a.outcome);
    } else if !a.StepRequest? && !a.StepReview? {
      OtherStepClimbs(s, a);
    }
  }

  lemma OtherStepClimbs(s: System, a: Action)
    requires Steady(s) && SteadyAction(s, a) && AllClimb(s.log) && !a.StepRequest? && !a.StepReview?
    ensures Steady(Step(s, a)) && AllClimb(Step(s, a).log)
  {
  }

  lemma {:induction false} RunClimbs(s: System, actions: seq<Action>)
    requires Initial(s) && Steady(s) && SteadyRun(s, actions)
    ensures Inv(Run(s, actions)) && Steady(Run(s, actions)) && AllClimb(Run(s, actions).log)
    decreases |actions|
  {
    InitialInv(s);
    if actions != [] {
      var prefix := actions[..|actions| - 1];
      RunClimbs(s, prefix);
      StepKeepsInv(Run(s, prefix), actions[|actions| - 1]);
      StepClimbs(Run(s, prefix), actions[|actions| - 1]);
    }
  }

  /** A steady run makes at most four state-changing writes per request created and one per
      review, and each request write climbs. */
  lemma SteadyRunBounded(s: System, actions: seq<Action>)
    requires Initial(s) && Steady(s) && SteadyRun(s, actions)
    ensures var log := Run(s, actions).log;
            && AllClimb(log)
            && RequestWrites(log) + ReviewWrites(log) <= 4 * RequestCreations(log) + ReviewCreations(log)
  {
    RunClimbs(s, actions);
    WritesBounded(Run(s, actions).log);
  }
}
