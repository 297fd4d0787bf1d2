/** A reconcile that is not disturbed: what it does as one big step, why doing it twice is doing
    it once, and when a decided request falls back to Pending. */
module Sequential {
  import opened Api
  import opened UserIdentity
  import opened Protocol
  import opened History
  import opened Invariant
  import opened Bounds

  /* ---------- a whole reconcile ---------- */

  function Phase(task: RequestTask): nat {
    match task
    case Fetched(_) => 9
    case FindingDeployment(_) => 8
    case FindingReviews(_, _) => 7
    case LookingUpJob(_, _) => 6
    case CreatingJob(_, _) => 5
    case CheckingJob(_) => 4
    case Rereading(_, _) => 3
    case Writing(_, _, _) => 2
    case Deleting(_) => 1
  }

  function WritesLeft(task: RequestTask): nat {
    if task.Writing? then |task.rest| else 0
  }

  /** The reconcile of `k` goes on, every call answered, until it is over. */
  function FinishRequest(s: System, k: Key): System
    decreases if k in s.requestTasks then Phase(s.requestTasks[k]) else 0,
              if k in s.requestTasks then WritesLeft(s.requestTasks[k]) else 0
  {
    if k !in s.requestTasks then s else FinishRequest(Step(s, StepRequest(k, Ok)), k)
  }

  function WholeRequest(s: System, k: Key): System {
    FinishRequest(Step(s, StartRequest(k, Ok)), k)
  }

  /* ---------- the same as one big step ---------- */

  function PutState(s: System, k: Key, state: RequestState): System
    requires k in s.store.requests
  {
    PutStatus(s, k, s.store.requests[k].status.(state := state), None)
  }

  function PutStates(s: System, k: Key, states: seq<RequestState>): System
    requires k in s.store.requests
    decreases |states|
  {
    if states == [] then s else PutStates(PutState(s, k, states[0]), k, states[1..])
  }

  /** The request is not due, not in a terminal state, and names a requester, a deployment and a
      container that exist. */
  predicate Proceeds(st: Store, k: Key) {
    && k in st.requests && !Expired(st, st.requests[k].created) && !Terminal(st.requests[k].status.state)
    && Inputs(st, k)
  }

  predicate Inputs(st: Store, k: Key)
    requires k in st.requests
  {
    var jr := st.requests[k];
    && IdentityOf(jr.requestedBy).Some?
    && DeploymentKey(k, jr) in st.deployments
    && JobFor(st.deployments[DeploymentKey(k, jr)], jr).template.containers != []
  }

  function BigStep(s: System, k: Key): System {
    var st := s.store;
    if k !in st.requests then s
    else if Expired(st, st.requests[k].created) then DeleteRequest(s, k)
    else if Terminal(st.requests[k].status.state) then s
    else if !Inputs(st, k) then PutState(s, k, Malformed)
    else if ReviewsOf(st, k) == {} then PutState(s, k, Pending)
    else Decided(s, k)
  }

  /** The part of the big step that follows a decision. */
  function Decided(s: System, k: Key): System
    requires k in s.store.requests && Inputs(s.store, k)
  {
    var jr := s.store.requests[k];
    match jr.status.state
    case Pending => s
    case Approved =>
      if k in s.store.jobs then PutState(s, k, Conflicted)
      else
        var job := JobFor(s.store.deployments[DeploymentKey(k, jr)], jr);
        PutStatus(MakeJob(s, k, jr, job), k, jr.status.(state := Started, jobName := k.name), None)
    case Started =>
      if k !in s.store.jobs then PutState(s, k, Malformed)
      else PutStates(s, k, FinalStates(s.store.jobs[k].conditions))
    case _ => s
  }

  predicate Idle(s: System, k: Key) {
    k !in s.requestTasks
  }

  function Busy(s: System, k: Key, task: RequestTask): System {
    s.(requestTasks := s.requestTasks[k := task])
  }

  /** What is in flight makes no difference to a call. */
  lemma BusyCall(s: System, k: Key, task: RequestTask)
    ensures RequestEffect(Busy(s, k, task), k, task, Ok) == Busy(RequestEffect(s, k, task, Ok), k, task)
    ensures RequestNext(Busy(s, k, task), k, task, Ok) == RequestNext(s, k, task, Ok)
    ensures RequestEffect(s, k, task, Ok).requestTasks == s.requestTasks
  {
  }

  /** One answered call. */
  lemma Answered(s: System, k: Key, task: RequestTask)
    requires Idle(s, k)
    ensures var next, s' := RequestNext(s, k, task, Ok), RequestEffect(s, k, task, Ok);
            && FinishRequest(Busy(s, k, task), k) == (if next.Some? then FinishRequest(Busy(s', k, next.value), k) else s')
            && Idle(s', k)
  {
    BusyCall(s, k, task);
    var e := RequestEffect(s, k, task, Ok);
    var next := RequestNext(s, k, task, Ok);
    if next.Some? {
      assert Step(Busy(s, k, task), StepRequest(k, Ok)) == Busy(e, k, next.value);
    } else {
      assert e.requestTasks[k := task] - {k} == e.requestTasks;
      assert Step(Busy(s, k, task), StepRequest(k, Ok)) == e;
    }
  }

  /** A call that only reads and goes on. */
  lemma Read(s: System, k: Key, task: RequestTask, next: RequestTask)
    requires Idle(s, k) && !task.Writing? && !task.CreatingJob? && !task.Deleting?
    requires RequestNext(s, k, task, Ok) == Some(next)
    ensures FinishRequest(Busy(s, k, task), k) == FinishRequest(Busy(s, k, next), k)
  {
    Answered(s, k, task);
  }

  /** From an update on, with the stored copy in hand: it is applied, then the rest of the loop. */
  lemma {:induction false} FinishWriting(s: System, k: Key, jr: JobRequest, status: RequestStatus, rest: seq<RequestState>)
    requires Idle(s, k) && k in s.store.requests && s.store.requests[k] == jr
    ensures FinishRequest(Busy(s, k, Writing(jr, status, rest)), k) == PutStates(PutStatus(s, k, status, None), k, rest)
    decreases |rest|
  {
    Answered(s, k, Writing(jr, status, rest));
    var s1 := PutStatus(s, k, status, None);
    if rest != [] {
      FinishWriting(s1, k, s1.store.requests[k], status.(state := rest[0]), rest[1..]);
    }
  }

  /** A single update ends the reconcile. */
  lemma FinishMove(s: System, k: Key, jr: JobRequest, state: RequestState)
    requires Idle(s, k) && k in s.store.requests && s.store.requests[k] == jr
    ensures FinishRequest(Busy(s, k, Move(jr, state)), k) == PutState(s, k, state)
  {
    FinishWriting(s, k, jr, jr.WithState(state).status, []);
  }

  lemma FinishCreating(s: System, k: Key, jr: JobRequest, job: Job)
    requires Idle(s, k) && k in s.store.requests && s.store.requests[k] == jr && k !in s.store.jobs
    ensures FinishRequest(Busy(s, k, CreatingJob(jr, job)), k) ==
              PutStatus(MakeJob(s, k, jr, job), k, jr.status.(state := Started, jobName := k.name), None)
  {
    Answered(s, k, CreatingJob(jr, job));
    FinishWriting(MakeJob(s, k, jr, job), k, jr, jr.status.(state := Started, jobName := k.name), []);
  }

  lemma FinishApproved(s: System, k: Key, jr: JobRequest, job: Job)
    requires Idle(s, k) && k in s.store.requests && s.store.requests[k] == jr
    ensures FinishRequest(Busy(s, k, LookingUpJob(jr, job)), k) ==
              if k in s.store.jobs then PutState(s, k, Conflicted)
              else PutStatus(MakeJob(s, k, jr, job), k, jr.status.(state := Started, jobName := k.name), None)
  {
    if k in s.store.jobs {
      Read(s, k, LookingUpJob(jr, job), Move(jr, Conflicted));
      FinishMove(s, k, jr, Conflicted);
    } else {
      Read(s, k, LookingUpJob(jr, job), CreatingJob(jr, job));
      FinishCreating(s, k, jr, job);
    }
  }

  lemma FinishRereading(s: System, k: Key, jr: JobRequest, conditions: seq<Condition>)
    requires Idle(s, k) && k in s.store.requests && s.store.requests[k] == jr
    ensures FinishRequest(Busy(s, k, Rereading(jr, conditions)), k) == PutStates(s, k, FinalStates(conditions))
  {
    var states := FinalStates(conditions);
    if states == [] {
      Answered(s, k, Rereading(jr, conditions));
    } else {
      Read(s, k, Rereading(jr, conditions), Writing(jr, jr.status.(state := states[0]), states[1..]));
      FinishWriting(s, k, jr, jr.status.(state := states[0]), states[1..]);
    }
  }

  lemma FinishStarted(s: System, k: Key, jr: JobRequest)
    requires Idle(s, k) && k in s.store.requests && s.store.requests[k] == jr
    ensures FinishRequest(Busy(s, k, CheckingJob(jr)), k) ==
              if k in s.store.jobs then PutStates(s, k, FinalStates(s.store.jobs[k].conditions)) else PutState(s, k, Malformed)
  {
    if k in s.store.jobs {
      Read(s, k, CheckingJob(jr), Rereading(jr, s.store.jobs[k].conditions));
      FinishRereading(s, k, jr, s.store.jobs[k].conditions);
    } else {
      Read(s, k, CheckingJob(jr), Move(jr, Malformed));
      FinishMove(s, k, jr, Malformed);
    }
  }

  lemma FinishDecidedApproved(s: System, k: Key, jr: JobRequest, job: Job)
    requires Idle(s, k) && k in s.store.requests && s.store.requests[k] == jr && Inputs(s.store, k)
    requires job == JobFor(s.store.deployments[DeploymentKey(k, jr)], jr) && ReviewsOf(s.store, k) != {}
    requires jr.status.state == Approved
    ensures FinishRequest(Busy(s, k, FindingReviews(jr, job)), k) == Decided(s, k)
  {
    Read(s, k, FindingReviews(jr, job), LookingUpJob(jr, job));
    FinishApproved(s, k, jr, job);
  }

  lemma FinishDecidedStarted(s: System, k: Key, jr: JobRequest, job: Job)
    requires Idle(s, k) && k in s.store.requests && s.store.requests[k] == jr && Inputs(s.store, k)
    requires ReviewsOf(s.store, k) != {} && jr.status.state == Started
    ensures FinishRequest(Busy(s, k, FindingReviews(jr, job)), k) == Decided(s, k)
  {
    Read(s, k, FindingReviews(jr, job), CheckingJob(jr));
    FinishStarted(s, k, jr);
  }

  lemma FinishDecidedPending(s: System, k: Key, jr: JobRequest, job: Job)
    requires Idle(s, k) && k in s.store.requests && s.store.requests[k] == jr && Inputs(s.store, k)
    requires ReviewsOf(s.store, k) != {} && jr.status.state == Pending
    ensures FinishRequest(Busy(s, k, FindingReviews(jr, job)), k) == Decided(s, k)
  {
    Read(s, k, FindingReviews(jr, job), Move(jr, Pending));
    FinishMove(s, k, jr, Pending);
  }

  /** In the other states there is nothing to do. */
  lemma FinishDecidedOver(s: System, k: Key, jr: JobRequest, job: Job)
    requires Idle(s, k) && k in s.store.requests && s.store.requests[k] == jr && Inputs(s.store, k)
    requires ReviewsOf(s.store, k) != {}
    requires jr.status.state != Pending && jr.status.state != Approved && jr.status.state != Started
    ensures FinishRequest(Busy(s, k, FindingReviews(jr, job)), k) == Decided(s, k)
  {
    Answered(s, k, FindingReviews(jr, job));
  }

  lemma FinishDecided(s: System, k: Key, jr: JobRequest, job: Job)
    requires Idle(s, k) && k in s.store.requests && s.store.requests[k] == jr && Inputs(s.store, k)
    requires job == JobFor(s.store.deployments[DeploymentKey(k, jr)], jr) && ReviewsOf(s.store, k) != {}
    ensures FinishRequest(Busy(s, k, FindingReviews(jr, job)), k) == Decided(s, k)
  {
    match jr.status.state
    case Pending => FinishDecidedPending(s, k, jr, job);
    case Approved => FinishDecidedApproved(s, k, jr, job);
    case Started => FinishDecidedStarted(s, k, jr, job);
    case _ => FinishDecidedOver(s, k, jr, job);
  }

  lemma FinishReviews(s: System, k: Key, jr: JobRequest, job: Job)
    requires Idle(s, k) && k in s.store.requests && s.store.requests[k] == jr && Inputs(s.store, k)
    requires job == JobFor(s.store.deployments[DeploymentKey(k, jr)], jr)
    ensures FinishRequest(Busy(s, k, FindingReviews(jr, job)), k) ==
              if ReviewsOf(s.store, k) == {} then PutState(s, k, Pending) else Decided(s, k)
  {
    if ReviewsOf(s.store, k) == {} {
      Read(s, k, FindingReviews(jr, job), Move(jr, Pending));
      FinishMove(s, k, jr, Pending);
    } else {
      FinishDecided(s, k, jr, job);
    }
  }

  lemma FinishDeployment(s: System, k: Key, jr: JobRequest)
    requires Idle(s, k) && k in s.store.requests && s.store.requests[k] == jr && IdentityOf(jr.requestedBy).Some?
    ensures FinishRequest(Busy(s, k, FindingDeployment(jr)), k) ==
              if !Inputs(s.store, k) then PutState(s, k, Malformed)
              else if ReviewsOf(s.store, k) == {} then PutState(s, k, Pending) else Decided(s, k)
  {
    if Inputs(s.store, k) {
      var job := JobFor(s.store.deployments[DeploymentKey(k, jr)], jr);
      Read(s, k, FindingDeployment(jr), FindingReviews(jr, job));
      FinishReviews(s, k, jr, job);
    } else {
      Read(s, k, FindingDeployment(jr), Move(jr, Malformed));
      FinishMove(s, k, jr, Malformed);
    }
  }

  /** A whole reconcile that nobody disturbs is the big step. */
  lemma WholeIsBigStep(s: System, k: Key)
    requires Idle(s, k)
    ensures WholeRequest(s, k) == BigStep(s, k)
  {
    if k in s.store.requests {
      var jr := s.store.requests[k];
      Answered(s, k, Fetched(jr));
      if Expired(s.store, jr.created) {
        Answered(s, k, Deleting(jr));
      } else if !Terminal(jr.status.state) {
        if IdentityOf(jr.requestedBy).None? {
          FinishMove(s, k, jr, Malformed);
        } else {
          FinishDeployment(s, k, jr);
        }
      }
    }
  }

  /* ---------- twice is once ---------- */

  /** An update leaves everything but the request's status as it was. */
  lemma PutStatusKeeps(s: System, k: Key, status: RequestStatus)
    requires k in s.store.requests
    ensures var s' := PutStatus(s, k, status, None);
            && k in s'.store.requests && s'.store.requests[k].status == status
            && SameRequest(s'.store.requests[k], s.store.requests[k])
            && s'.store == s.store.(requests := s'.store.requests, requestRev := s'.store.requestRev)
            && s'.requestTasks == s.requestTasks
            && (Inputs(s'.store, k) <==> Inputs(s.store, k))
            && ReviewsOf(s'.store, k) == ReviewsOf(s.store, k)
  {
  }

  lemma {:induction false} PutStatesEnds(s: System, k: Key, states: seq<RequestState>)
    requires k in s.store.requests && Finals(states)
    ensures var s' := PutStates(s, k, states);
            && k in s'.store.requests && s'.store.clock == s.store.clock && s'.store.ttl == s.store.ttl
            && SameRequest(s'.store.requests[k], s.store.requests[k])
            && (states != [] ==> Terminal(s'.store.requests[k].status.state))
    decreases |states|
  {
    if states != [] {
      var s1 := PutState(s, k, states[0]);
      PutStatusKeeps(s, k, s.store.requests[k].status.(state := states[0]));
      assert Finals(states[1..]);
      PutStatesEnds(s1, k, states[1..]);
    }
  }

  /** Writing a state that is there already, or a terminal one, is the end of it. */
  lemma StoppedByState(s: System, k: Key, state: RequestState)
    requires k in s.store.requests && !Expired(s.store, s.store.requests[k].created)
    requires || Terminal(state)
             || (state == Pending && Inputs(s.store, k) && ReviewsOf(s.store, k) == {}
                 && !Terminal(s.store.requests[k].status.state))
    ensures var s' := PutState(s, k, state); BigStep(s', k) == s'
  {
    PutStatusKeeps(s, k, s.store.requests[k].status.(state := state));
  }

  /** After the Job is created, the next reconcile finds it without an outcome. */
  lemma StoppedByStart(s: System, k: Key)
    requires Proceeds(s.store, k) && ReviewsOf(s.store, k) != {}
    requires s.store.requests[k].status.state == Approved && k !in s.store.jobs
    ensures var s' := Decided(s, k); BigStep(s', k) == s'
  {
    var jr := s.store.requests[k];
    var job := JobFor(s.store.deployments[DeploymentKey(k, jr)], jr);
    var s1 := MakeJob(s, k, jr, job);
    var status := jr.status.(state := Started, jobName := k.name);
    PutStatusKeeps(s1, k, status);
    var s' := PutStatus(s1, k, status, None);
    assert s'.store.jobs[k].conditions == [];
    assert s'.store.deployments == s.store.deployments && ReviewsOf(s1.store, k) == ReviewsOf(s.store, k);
    assert Inputs(s1.store, k);
  }

  /** With the clock still and no failing calls, a second reconcile changes nothing. */
  lemma BigStepIdempotent(s: System, k: Key)
    ensures BigStep(BigStep(s, k), k).store == BigStep(s, k).store
  {
    if Proceeds(s.store, k) && ReviewsOf(s.store, k) != {} {
      match s.store.requests[k].status.state
      case Approved =>
        if k in s.store.jobs {
          StoppedByState(s, k, Conflicted);
        } else {
          StoppedByStart(s, k);
        }
      case Started =>
        if k in s.store.jobs {
          var states := FinalStates(s.store.jobs[k].conditions);
          FinalStatesAreFinal(s.store.jobs[k].conditions);
          PutStatesEnds(s, k, states);
        } else {
          StoppedByState(s, k, Malformed);
        }
      case _ =>
    } else if Proceeds(s.store, k) {
      StoppedByState(s, k, Pending);
    } else if k in s.store.requests && !Expired(s.store, s.store.requests[k].created) && !Terminal(s.store.requests[k].status.state) {
      StoppedByState(s, k, Malformed);
    }
  }

  /** A reconcile that has run to its end is no longer in flight. */
  lemma {:induction false} FinishedIsIdle(s: System, k: Key)
    ensures Idle(FinishRequest(s, k), k)
    decreases if k in s.requestTasks then Phase(s.requestTasks[k]) else 0,
              if k in s.requestTasks then WritesLeft(s.requestTasks[k]) else 0
  {
    if k in s.requestTasks {
      FinishedIsIdle(Step(s, StepRequest(k, Ok)), k);
    }
  }

  lemma RequestIdempotent(s: System, k: Key)
    requires Idle(s, k)
    ensures WholeRequest(WholeRequest(s, k), k).store == WholeRequest(s, k).store
  {
    FinishedIsIdle(Step(s, StartRequest(k, Ok)), k);
    WholeIsBigStep(s, k);
    WholeIsBigStep(WholeRequest(s, k), k);
    BigStepIdempotent(s, k);
  }

  /* ---------- existing Jobs, and the fallback ---------- */

  lemma RequestEffectSparesJob(s: System, x: Key, task: RequestTask, outcome: Outcome, k: Key)
    requires k in s.store.jobs
    ensures var s' := RequestEffect(s, x, task, outcome);
            && k in s'.store.jobs && s'.store.jobs[k] == s.store.jobs[k]
            && forall e | e in s'.log && e.JobCreated? && e.key == k :: e in s.log
  {
  }

  lemma ReviewEffectSparesJobs(s: System, rk: Key, task: ReviewTask, outcome: Outcome)
    ensures var s' := ReviewEffect(s, rk, task, outcome);
            s'.store.jobs == s.store.jobs && forall e | e in s'.log && e.JobCreated? :: e in s.log
  {
  }

  /** While a Job of that name exists and nobody else touches it, no step creates another or
      changes it. */
  lemma ExistingJobStays(s: System, a: Action, k: Key)
    requires k in s.store.jobs && !(a.SetJob? && a.key == k)
    ensures var s' := Step(s, a);
            && k in s'.store.jobs && s'.store.jobs[k] == s.store.jobs[k]
            && forall e | e in s'.log && e.JobCreated? && e.key == k :: e in s.log
  {
    if a.StepRequest? && a.key in s.requestTasks {
      RequestEffectSparesJob(s, a.key, s.requestTasks[a.key], a.outcome, k);
    } else if a.StepReview? && a.key in s.reviewTasks {
      ReviewEffectSparesJobs(s, a.key, s.reviewTasks[a.key], a.outcome);
    }
  }

  /** The call that lists the reviews writes nothing, and falls back to Pending when it fails or
      finds none. */
  lemma ListedReviews(s: System, k: Key, jr: JobRequest, job: Job, outcome: Outcome)
    requires Stored(s.requestTasks, k) == Some(FindingReviews(jr, job))
    ensures var s' := Step(s, StepRequest(k, outcome));
            && s' == s.(requestTasks := s'.requestTasks)
            && Stored(s'.requestTasks, k) ==
               if outcome != Ok || ReviewsOf(s.store, k) == {} then Some(Move(jr, Pending)) else AfterState(jr, job, jr.status.state)
  {
  }

  lemma PendingWritten(s: System, k: Key, jr: JobRequest)
    requires Stored(s.requestTasks, k) == Some(Move(jr, Pending)) && Stored(s.store.requests, k) == Some(jr)
    ensures var s' := Step(s, StepRequest(k, Ok)); k in s'.store.requests && s'.store.requests[k].status == jr.WithState(Pending).status
  {
  }

  /** A decided request goes back to Pending exactly when its list of reviews fails or is empty. */
  lemma FallbackExactly(s: System, k: Key, outcome: Outcome)
    requires k in s.requestTasks && s.requestTasks[k].FindingReviews?
    requires Stored(s.store.requests, k) == Some(s.requestTasks[k].jr) && s.requestTasks[k].jr.status.state != Pending
    ensures var s' := Step(Step(s, StepRequest(k, outcome)), StepRequest(k, Ok));
            k in s'.store.requests && (s'.store.requests[k].status.state == Pending <==> outcome != Ok || ReviewsOf(s.store, k) == {})
  {
    var jr, job := s.requestTasks[k].jr, s.requestTasks[k].job;
    var s1 := Step(s, StepRequest(k, outcome));
    ListedReviews(s, k, jr, job, outcome);
    if outcome != Ok || ReviewsOf(s.store, k) == {} {
      PendingWritten(s1, k, jr);
    } else if k in s1.requestTasks {
      RequestEffectLocal(s1, k, s1.requestTasks[k], Ok);
    }
  }

  /** The update to Pending, and nothing else. */
  lemma FallsBack(s: System, k: Key, jr: JobRequest, job: Job)
    requires Stored(s.requestTasks, k) == Some(FindingReviews(jr, job)) && Stored(s.store.requests, k) == Some(jr)
    ensures var s' := Step(Step(s, StepRequest(k, Fails)), StepRequest(k, Ok));
            s'.store == PutState(s, k, Pending).store && s'.log == PutState(s, k, Pending).log
  {
    var s1 := Step(s, StepRequest(k, Fails));
    ListedReviews(s, k, jr, job, Fails);
    MoveIsPut(s1, k, jr, Pending);
    assert s1 == s.(requestTasks := s1.requestTasks);
    PutIgnoresTasks(s, s1, k, Pending);
  }

  lemma MoveIsPut(s: System, k: Key, jr: JobRequest, state: RequestState)
    requires Stored(s.requestTasks, k) == Some(Move(jr, state)) && Stored(s.store.requests, k) == Some(jr)
    ensures var s' := Step(s, StepRequest(k, Ok)); s'.store == PutState(s, k, state).store && s'.log == PutState(s, k, state).log
  {
  }

  lemma PutIgnoresTasks(s: System, t: System, k: Key, state: RequestState)
    requires k in s.store.requests && t == s.(requestTasks := t.requestTasks)
    ensures PutState(t, k, state).store == PutState(s, k, state).store && PutState(t, k, state).log == PutState(s, k, state).log
  {
  }

  /** Review `rk` is of request `k`, undecided, young, approving, and by somebody else. */
  predicate CouldApprove(st: Store, k: Key, rk: Key) {
    && k in st.requests && rk in ReviewsOf(st, k) && !Expired(st, st.reviews[rk].created)
    && st.reviews[rk].state == Undecided && st.reviews[rk].decision == Approve
    && DifferentPeople(st.requests[k].requestedBy, st.reviews[rk].reviewedBy)
  }

  /** The verdict changes nothing about the review but its state. */
  lemma PutStateKeeps(s: System, rk: Key, to: ReviewState)
    requires rk in s.store.reviews
    ensures var st, st' := s.store, PutReviewState(s, rk, to).store;
            && st' == st.(reviews := st'.reviews, reviewRev := st'.reviewRev, seen := st'.seen)
            && rk in st'.reviews && st'.reviews[rk].requestName == st.reviews[rk].requestName
            && s.log <= PutReviewState(s, rk, to).log
  {
  }

  lemma ApprovesPending(s: System, k: Key, rk: Key)
    requires CouldApprove(s.store, k, rk) && s.store.requests[k].status.state == Pending
    ensures var st, st' := s.store, BigReview(s, rk).store;
            && k in st'.requests && SameRequest(st'.requests[k], st.requests[k])
            && st'.requests[k].status == RequestStatus(st.requests[k].status.jobName, Approved, rk.name)
            && st'.clock == st.clock && st'.ttl == st.ttl && st'.jobs == st.jobs && st'.deployments == st.deployments
            && rk in ReviewsOf(st', k) && s.log <= BigReview(s, rk).log
  {
    var rv := s.store.reviews[rk];
    assert Target(rk, rv) == k && Decides(s.store, rk, rv);
    PutStateKeeps(Commit(s, rk, rv), rk, ReviewApproved);
  }

  /** The Job is noted, and after it the update that says so. */
  lemma ApprovedRuns(s: System, k: Key)
    requires Proceeds(s.store, k) && s.store.requests[k].status.state == Approved && ReviewsOf(s.store, k) != {}
    requires k !in s.store.jobs
    ensures var st, s' := s.store, BigStep(s, k);
            var st' := s'.store;
            && k in st'.jobs && st'.jobs[k].owner == st.requests[k].uid
            && k in st'.requests && SameRequest(st'.requests[k], st.requests[k])
            && st'.requests[k].status == RequestStatus(k.name, Started, st.requests[k].status.reviewName)
            && st'.clock == st.clock && st'.ttl == st.ttl && st'.deployments == st.deployments && st'.reviews == st.reviews
            && s.log < s'.log && s'.log[|s.log|] == JobCreated(k, st.requests[k])
  {
    var jr := s.store.requests[k];
    var job := JobFor(s.store.deployments[DeploymentKey(k, jr)], jr);
    var s1 := MakeJob(s, k, jr, job);
    PutStatusKeeps(s1, k, jr.status.(state := Started, jobName := k.name));
    LogGoesOn(s1, k, jr.status.(state := Started, jobName := k.name));
    assert s.log < s1.log && s1.log[|s.log|] == JobCreated(k, jr);
  }

  lemma LogGoesOn(s: System, k: Key, status: RequestStatus)
    requires k in s.store.requests
    ensures s.log <= PutStatus(s, k, status, None).log
  {
  }

  /* ---------- Jobs that report both outcomes ---------- */

  /** An update to another state is one more write; to the same, nothing. */
  lemma PutStateNotes(s: System, k: Key, state: RequestState)
    requires k in s.store.requests
    ensures var was, s' := s.store.requests[k].status.state, PutState(s, k, state);
            && k in s'.store.requests && s'.store.requests[k].status.state == state
            && (was == state ==> s' == s)
            && (was != state ==>
                  && s'.log != [] && s'.log == s.log + [Last(s'.log)] && Last(s'.log).RequestWritten?
                  && Last(s'.log).before.status.state == was && Last(s'.log).after.status.state == state)
  {
  }

  predicate AllAre(states: seq<RequestState>, state: RequestState) {
    forall i | 0 <= i < |states| :: states[i] == state
  }

  lemma AllAreCons(states: seq<RequestState>, state: RequestState)
    requires states != []
    ensures AllAre(states, state) <==> states[0] == state && AllAre(states[1..], state)
  {
    assert states == [states[0]] + states[1..];
  }

  /** From a terminal state on, the loop climbs only by staying where it is. */
  lemma {:induction false} PutStatesClimb(s: System, k: Key, states: seq<RequestState>)
    requires k in s.store.requests && Terminal(s.store.requests[k].status.state) && Finals(states)
    ensures AllClimb(PutStates(s, k, states).log) <==> AllClimb(s.log) && AllAre(states, s.store.requests[k].status.state)
    decreases |states|
  {
    if states != [] {
      var s1 := PutState(s, k, states[0]);
      PutStateNotes(s, k, states[0]);
      assert Finals(states[1..]) && Terminal(states[0]);
      PutStatesClimb(s1, k, states[1..]);
      AllAreCons(states, s.store.requests[k].status.state);
      if states[0] != s.store.requests[k].status.state {
        AllClimbAppended(s.log, Last(s1.log));
      }
    }
  }

  lemma StartedClimb(s: System, k: Key, states: seq<RequestState>)
    requires k in s.store.requests && s.store.requests[k].status.state == Started && Finals(states) && AllClimb(s.log)
    ensures AllClimb(PutStates(s, k, states).log) <==> Constant(states)
  {
    if states != [] {
      var s1 := PutState(s, k, states[0]);
      PutStateNotes(s, k, states[0]);
      AllClimbAppended(s.log, Last(s1.log));
      assert Finals(states[1..]) && Terminal(states[0]);
      PutStatesClimb(s1, k, states[1..]);
      ConstantTail(states);
    }
  }

  lemma ConstantTail(states: seq<RequestState>)
    requires states != []
    ensures Constant(states) <==> AllAre(states[1..], states[0])
  {
    if AllAre(states[1..], states[0]) {
      forall j | 0 <= j < |states| ensures states[j] == states[0] {
        if j > 0 {
          assert states[1..][j - 1] == states[j];
        }
      }
    }
  }

  /** One reconcile of a Started request writes a terminal state over another exactly when its Job
      reports both outcomes. */
  lemma TwoOutcomesDescend(s: System, k: Key)
    requires Proceeds(s.store, k) && ReviewsOf(s.store, k) != {} && k in s.store.jobs
    requires s.store.requests[k].status.state == Started && AllClimb(s.log)
    ensures AllClimb(BigStep(s, k).log) <==> OneOutcome(s.store.jobs[k].conditions)
  {
    var conditions := s.store.jobs[k].conditions;
    FinalStatesAreFinal(conditions);
    StartedClimb(s, k, FinalStates(conditions));
    LoopWritesOneState(conditions);
  }

  /* ---------- whole review reconciles ---------- */

  function ReviewPhase(task: ReviewTask): nat {
    match task
    case FetchedReview(_) => 4
    case FindingRequest(_) => 3
    case Committing(_, _) => 2
    case WritingReview(_, _) => 1
    case DeletingReview(_) => 1
  }

  function FinishReview(s: System, rk: Key): System
    decreases if rk in s.reviewTasks then ReviewPhase(s.reviewTasks[rk]) else 0
  {
    if rk !in s.reviewTasks then s else FinishReview(Step(s, StepReview(rk, Ok)), rk)
  }

  /** A whole reconcile of a review that begins from the form the cache serves. */
  function ReviewFrom(s: System, rk: Key, cached: Option<Review>): System {
    FinishReview(Step(s, StartReview(rk, cached)), rk)
  }

  /** The reconcile of a review the cache serves as it is stored. */
  function WholeReview(s: System, rk: Key): System {
    ReviewFrom(s, rk, Stored(s.store.reviews, rk))
  }

  /** The verdict an undecided review deserves as things stand, if any yet. */
  function Deserved(st: Store, rk: Key, rv: Review): Option<ReviewState> {
    var k := Target(rk, rv);
    if IdentityOf(rv.reviewedBy).None? then Some(ReviewMalformed)
    else if k !in st.requests then Some(ReviewNotFound)
    else
      var jr := st.requests[k];
      if Decides(st, rk, rv) then Some(if rv.decision == Approve then ReviewApproved else ReviewRejected)
      else if jr.status.state == Malformed || (jr.status.state == Pending && IdentityOf(jr.requestedBy).None?) then Some(ReviewMalformed)
      else if jr.status.state == Pending || jr.status.state == Conflicted then Some(ReviewConflict)
      else if jr.HasBeenReviewed() && !jr.status.state.Unlisted? && jr.status.reviewName != rk.name then Some(ReviewConflict)
      else None
  }

  /** The review decides its request: that is Pending, and asked for by somebody else. */
  predicate Decides(st: Store, rk: Key, rv: Review) {
    var k := Target(rk, rv);
    k in st.requests && st.requests[k].status.state == Pending && DifferentPeople(st.requests[k].requestedBy, rv.reviewedBy)
  }

  /** The request as decided by the review. */
  function Commit(s: System, rk: Key, rv: Review): System
    requires Target(rk, rv) in s.store.requests
  {
    var k := Target(rk, rv);
    var state := if rv.decision == Approve then Approved else Rejected;
    PutStatus(s, k, RequestStatus(s.store.requests[k].status.jobName, state, rk.name), Some(Decider(rk, rv)))
  }

  /** The verdict is stored if the form in hand is the one stored. */
  function PutVerdict(s: System, rk: Key, v: Review, to: ReviewState): System {
    if FreshReview(s.store, rk, v) then PutReviewState(s, rk, to) else s
  }

  /** The reconcile from form `v` of the review as one big step. Whether that is the stored form, or
      the review still stored, matters for the verdict alone. */
  function BigReviewFrom(s: System, rk: Key, v: Review): System {
    var st := s.store;
    if Expired(st, v.created) then DeleteReview(s, rk)
    else if v.state != Undecided || Deserved(st, rk, v).None? then s
    else PutVerdict(if Decides(st, rk, v) then Commit(s, rk, v) else s, rk, v, Deserved(st, rk, v).value)
  }

  function BigReview(s: System, rk: Key): System {
    if rk in s.store.reviews then BigReviewFrom(s, rk, s.store.reviews[rk]) else s
  }

  /** The cache may serve the review as it is stored. */
  predicate Cached(st: Store, rk: Key) {
    rk in st.reviews ==> st.reviews[rk] in SeenOf(st.seen, rk)
  }

  predicate IdleReview(s: System, rk: Key) {
    rk !in s.reviewTasks
  }

  function BusyReview(s: System, rk: Key, task: ReviewTask): System {
    s.(reviewTasks := s.reviewTasks[rk := task])
  }

  lemma BusyReviewCall(s: System, rk: Key, task: ReviewTask)
    ensures ReviewEffect(BusyReview(s, rk, task), rk, task, Ok) == BusyReview(ReviewEffect(s, rk, task, Ok), rk, task)
    ensures ReviewEffect(s, rk, task, Ok).reviewTasks == s.reviewTasks
  {
  }

  lemma AnsweredReview(s: System, rk: Key, task: ReviewTask)
    requires IdleReview(s, rk)
    ensures var next, s' := ReviewNext(s.store, rk, task, Ok), ReviewEffect(s, rk, task, Ok);
            && FinishReview(BusyReview(s, rk, task), rk) == (if next.Some? then FinishReview(BusyReview(s', rk, next.value), rk) else s')
            && IdleReview(s', rk)
  {
    BusyReviewCall(s, rk, task);
    var e := ReviewEffect(s, rk, task, Ok);
    var next := ReviewNext(s.store, rk, task, Ok);
    if next.Some? {
      assert Step(BusyReview(s, rk, task), StepReview(rk, Ok)) == BusyReview(e, rk, next.value);
    } else {
      assert e.reviewTasks[rk := task] - {rk} == e.reviewTasks;
      assert Step(BusyReview(s, rk, task), StepReview(rk, Ok)) == e;
    }
  }

  lemma StartsFrom(s: System, rk: Key, v: Review)
    requires IdleReview(s, rk) && v in SeenOf(s.store.seen, rk)
    ensures Step(s, StartReview(rk, Some(v))) == BusyReview(s, rk, FetchedReview(v))
  {
  }

  /** A call that only reads and goes on. */
  lemma ReviewReads(s: System, rk: Key, task: ReviewTask, next: ReviewTask)
    requires IdleReview(s, rk) && (task.FetchedReview? || task.FindingRequest?)
    requires ReviewNext(s.store, rk, task, Ok) == Some(next)
    ensures FinishReview(BusyReview(s, rk, task), rk) == FinishReview(BusyReview(s, rk, next), rk)
  {
    AnsweredReview(s, rk, task);
  }

  lemma FinishVerdict(s: System, rk: Key, v: Review, to: ReviewState)
    requires IdleReview(s, rk)
    ensures FinishReview(BusyReview(s, rk, WritingReview(v, to)), rk) == PutVerdict(s, rk, v, to)
  {
    AnsweredReview(s, rk, WritingReview(v, to));
  }

  lemma FinishCommit(s: System, rk: Key, v: Review, jr: JobRequest)
    requires IdleReview(s, rk) && Stored(s.store.requests, Target(rk, v)) == Some(jr)
    ensures FinishReview(BusyReview(s, rk, Committing(v, jr)), rk) == PutVerdict(Commit(s, rk, v), rk, v, v.decision.AsReviewState())
  {
    AnsweredReview(s, rk, Committing(v, jr));
    assert Commit(s, rk, v) == PutStatus(s, Target(rk, v), DecidedStatus(rk, v, jr), Some(Decider(rk, v)));
    FinishVerdict(Commit(s, rk, v), rk, v, v.decision.AsReviewState());
  }

  lemma PendingIsDeserved(st: Store, rk: Key, rv: Review)
    requires IdentityOf(rv.reviewedBy).Some? && Target(rk, rv) in st.requests && st.requests[Target(rk, rv)].status.state == Pending
    ensures var jr, verdict := st.requests[Target(rk, rv)], Deserved(st, rk, rv);
            verdict.Some? && AfterPending(rv, jr) == if Decides(st, rk, rv) then Committing(rv, jr) else WritingReview(rv, verdict.value)
  {
  }

  lemma DecidedIsDeserved(st: Store, rk: Key, rv: Review)
    requires IdentityOf(rv.reviewedBy).Some? && Target(rk, rv) in st.requests && st.requests[Target(rk, rv)].status.state != Pending
    ensures !Decides(st, rk, rv)
    ensures var jr, verdict := st.requests[Target(rk, rv)], Deserved(st, rk, rv);
            AfterRequest(rk, rv, jr) == if verdict.None? then None else Some(WritingReview(rv, verdict.value))
  {
    assert !Decides(st, rk, rv);
    var jr := st.requests[Target(rk, rv)];
    if jr.status.state == Malformed {
      assert Deserved(st, rk, rv) == Some(ReviewMalformed);
    } else if jr.status.state == Conflicted {
      assert Deserved(st, rk, rv) == Some(ReviewConflict);
    } else if jr.status.state == Unset || jr.status.state.Unlisted? {
      assert Deserved(st, rk, rv) == None;
    }
  }

  /** What the review does about the request it finds is what it deserves. */
  lemma FoundIsDeserved(st: Store, rk: Key, rv: Review)
    requires IdentityOf(rv.reviewedBy).Some? && Target(rk, rv) in st.requests
    ensures var jr, verdict := st.requests[Target(rk, rv)], Deserved(st, rk, rv);
            AfterRequest(rk, rv, jr) ==
              if verdict.None? then None else Some(if Decides(st, rk, rv) then Committing(rv, jr) else WritingReview(rv, verdict.value))
  {
    if st.requests[Target(rk, rv)].status.state == Pending {
      PendingIsDeserved(st, rk, rv);
    } else {
      DecidedIsDeserved(st, rk, rv);
    }
  }

  lemma FinishFinding(s: System, rk: Key, v: Review)
    requires IdleReview(s, rk)
    requires IdentityOf(v.reviewedBy).Some? && v.state == Undecided && !Expired(s.store, v.created)
    ensures FinishReview(BusyReview(s, rk, FindingRequest(v)), rk) == BigReviewFrom(s, rk, v)
  {
    AnsweredReview(s, rk, FindingRequest(v));
    if Target(rk, v) !in s.store.requests {
      FinishVerdict(s, rk, v, ReviewNotFound);
    } else {
      FoundIsDeserved(s.store, rk, v);
      if Decides(s.store, rk, v) {
        FinishCommit(s, rk, v, s.store.requests[Target(rk, v)]);
      } else if Deserved(s.store, rk, v).Some? {
        FinishVerdict(s, rk, v, Deserved(s.store, rk, v).value);
      }
    }
  }

  lemma FinishFetched(s: System, rk: Key, v: Review)
    requires IdleReview(s, rk)
    ensures FinishReview(BusyReview(s, rk, FetchedReview(v)), rk) == BigReviewFrom(s, rk, v)
  {
    AnsweredReview(s, rk, FetchedReview(v));
    if Expired(s.store, v.created) {
      AnsweredReview(s, rk, DeletingReview(v));
    } else if v.state == Undecided {
      if IdentityOf(v.reviewedBy).None? {
        FinishVerdict(s, rk, v, ReviewMalformed);
      } else {
        FinishFinding(s, rk, v);
      }
    }
  }

  /** A whole review reconcile that nobody disturbs is the big step, whichever form it begins from. */
  lemma ReviewFromIsBig(s: System, rk: Key, v: Review)
    requires IdleReview(s, rk) && v in SeenOf(s.store.seen, rk)
    ensures ReviewFrom(s, rk, Some(v)) == BigReviewFrom(s, rk, v)
  {
    StartsFrom(s, rk, v);
    FinishFetched(s, rk, v);
  }

  lemma WholeIsBigReview(s: System, rk: Key)
    requires IdleReview(s, rk) && Cached(s.store, rk)
    ensures WholeReview(s, rk) == BigReview(s, rk)
  {
    if rk in s.store.reviews {
      ReviewFromIsBig(s, rk, s.store.reviews[rk]);
    }
  }

  /** The stored form is never out of date. */
  lemma VerdictGiven(s: System, rk: Key, rv: Review)
    requires Stored(s.store.reviews, rk) == Some(rv) && !Expired(s.store, rv.created) && rv.state == Undecided
    requires Deserved(s.store, rk, rv).Some?
    ensures BigReview(s, rk) ==
              PutReviewState(if Decides(s.store, rk, rv) then Commit(s, rk, rv) else s, rk, Deserved(s.store, rk, rv).value)
  {
  }

  /** A review with a verdict is left alone. */
  lemma Settled(s: System, rk: Key)
    requires rk in s.store.reviews && IsSettled(s.store, rk)
    ensures BigReview(s, rk) == s
  {
  }

  predicate IsSettled(st: Store, rk: Key)
    requires rk in st.reviews
  {
    !Expired(st, st.reviews[rk].created) && st.reviews[rk].state != Undecided
  }

  lemma PutStateSettles(s: System, rk: Key, to: ReviewState)
    requires rk in s.store.reviews && !Expired(s.store, s.store.reviews[rk].created) && to != Undecided
    ensures var s' := PutReviewState(s, rk, to);
            rk in s'.store.reviews && IsSettled(s'.store, rk) && s'.reviewTasks == s.reviewTasks
  {
  }

  lemma VerdictSettles(s: System, rk: Key, rv: Review, to: ReviewState)
    requires rk in s.store.reviews && !Expired(s.store, s.store.reviews[rk].created) && to != Undecided
    ensures var s' := PutReviewState(if Decides(s.store, rk, rv) then Commit(s, rk, rv) else s, rk, to);
            rk in s'.store.reviews && IsSettled(s'.store, rk) && s'.reviewTasks == s.reviewTasks
  {
    if Decides(s.store, rk, rv) {
      PutStateSettles(Commit(s, rk, rv), rk, to);
    } else {
      PutStateSettles(s, rk, to);
    }
  }

  lemma BigReviewTwice(s: System, rk: Key)
    ensures BigReview(BigReview(s, rk), rk) == BigReview(s, rk)
    ensures BigReview(s, rk).reviewTasks == s.reviewTasks
  {
    if rk in s.store.reviews && !Expired(s.store, s.store.reviews[rk].created) && s.store.reviews[rk].state == Undecided {
      var rv := s.store.reviews[rk];
      if Deserved(s.store, rk, rv).Some? {
        VerdictGiven(s, rk, rv);
        VerdictSettles(s, rk, rv, Deserved(s.store, rk, rv).value);
        Settled(BigReview(s, rk), rk);
      }
    }
  }

  lemma BigReviewCached(s: System, rk: Key)
    requires Cached(s.store, rk)
    ensures Cached(BigReview(s, rk).store, rk)
  {
    if rk in s.store.reviews && !Expired(s.store, s.store.reviews[rk].created) {
      var rv := s.store.reviews[rk];
      if Deserved(s.store, rk, rv).Some? {
        VerdictCached(if Decides(s.store, rk, rv) then Commit(s, rk, rv) else s, rk, Deserved(s.store, rk, rv).value);
      }
    }
  }

  lemma VerdictCached(s: System, rk: Key, to: ReviewState)
    requires rk in s.store.reviews && Cached(s.store, rk)
    ensures Cached(PutReviewState(s, rk, to).store, rk)
  {
  }

  lemma {:induction false} FinishedReviewIsIdle(s: System, rk: Key)
    ensures IdleReview(FinishReview(s, rk), rk)
    decreases if rk in s.reviewTasks then ReviewPhase(s.reviewTasks[rk]) else 0
  {
    if rk in s.reviewTasks {
      FinishedReviewIsIdle(Step(s, StepReview(rk, Ok)), rk);
    }
  }

  /** With the clock still, the cache fresh and no failing calls, a second review reconcile changes
      nothing either. */
  lemma ReviewIdempotent(s: System, rk: Key)
    requires IdleReview(s, rk)
    ensures WholeReview(WholeReview(s, rk), rk).store == WholeReview(s, rk).store
  {
    if Cached(s.store, rk) {
      WholeIsBigReview(s, rk);
      BigReviewTwice(s, rk);
      BigReviewCached(s, rk);
      FinishedReviewIsIdle(Step(s, StartReview(rk, Stored(s.store.reviews, rk))), rk);
      WholeIsBigReview(WholeReview(s, rk), rk);
    } else {
      assert Step(s, StartReview(rk, Stored(s.store.reviews, rk))) == s;
    }
  }
}
