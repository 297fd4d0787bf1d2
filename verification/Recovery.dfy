/** What the operator makes of a Job it has lost track of: how it can lose track, that it ends
    Conflicted while the Job is there, and that it makes a second one when the Job is gone. And how a
    request whose Job it knows ends. */
module Recovery {
  import opened Api
  import opened UserIdentity
  import opened Protocol
  import opened History
  import opened Invariant
  import opened Bounds
  import opened Decisions
  import opened Sequential
  import opened Schedule
  import P = Pruning

  /* ---------- losing track ---------- */

  /** Between creating the Job and saying so the operator loses track of it exactly when it is stopped
      or its update fails. Nothing anybody else does can bring that about. */
  lemma LosesTrackExactly(s: System, a: Action, k: Key)
    requires Inv(s) && P.Posting(s, k)
    ensures var s' := Step(s, a);
            k in s'.store.requests && s'.store.requests[k].status.state == Approved && !P.Posting(s', k)
            <==> a == StopRequest(k) || a == StepRequest(k, Fails)
  {
    if a.StepRequest? && a.key == k {
      OwnPost(s, k, a.outcome);
    } else if a == StopRequest(k) {
      StoppedPost(s, k);
    } else {
      NotDecidedOn(s, a, k);
      P.OthersLeaveAlone(s, a, k);
      P.OthersKeepPosting(s, a, k);
    }
  }

  lemma OwnPost(s: System, k: Key, outcome: Outcome)
    requires P.Posting(s, k)
    ensures var s' := Step(s, StepRequest(k, outcome));
            && k in s'.store.requests && Idle(s', k)
            && (s'.store.requests[k].status.state == Approved <==> outcome == Fails)
            && (outcome == Fails ==> s'.store == s.store && s'.log == s.log)
  {
  }

  lemma StoppedPost(s: System, k: Key)
    requires P.Posting(s, k)
    ensures var s' := Step(s, StopRequest(k)); s'.store == s.store && s'.log == s.log && Idle(s', k)
  {
  }

  /** Nobody decides on a request that is not Pending. */
  lemma NotDecidedOn(s: System, a: Action, k: Key)
    requires Inv(s) && k in s.store.requests && s.store.requests[k].status.state != Pending
    requires !(a.StepRequest? && a.key == k)
    ensures !P.Touches(s, a, k)
  {
    if a.StepReview? && a.key in s.reviewTasks {
      assert HoldsReview(s.store, a.key, s.reviewTasks[a.key]);
    }
  }

  /* ---------- the Job is gone ---------- */

  /** A Job for the incarnation is created on the way from log `before` to log `now`. */
  predicate JobMade(before: seq<Event>, now: seq<Event>, k: Key, uid: nat) {
    exists j | |before| <= j < |now| :: P.MakesJob(now[j], k, uid)
  }

  /** Two Jobs were created for one incarnation. */
  predicate Repeated(log: seq<Event>, k: Key, uid: nat) {
    exists i, j | 0 <= i < j < |log| :: P.MakesJob(log[i], k, uid) && P.MakesJob(log[j], k, uid)
  }

  lemma OneWriteMakesNoJob(s: System, k: Key, state: RequestState, uid: nat)
    requires k in s.store.requests
    ensures !JobMade(s.log, PutState(s, k, state).log, k, uid)
  {
  }

  /** An undisturbed reconcile of an Approved request creates a Job exactly when none of that name is
      there, the request is in order and young, and it lists a review. */
  lemma SecondJobExactly(s: System, k: Key)
    requires Idle(s, k) && k in s.store.requests && s.store.requests[k].status.state == Approved
    ensures JobMade(s.log, WholeRequest(s, k).log, k, s.store.requests[k].uid)
            <==> k !in s.store.jobs && Proceeds(s.store, k) && ReviewsOf(s.store, k) != {}
  {
    var uid := s.store.requests[k].uid;
    WholeIsBigStep(s, k);
    if Proceeds(s.store, k) && ReviewsOf(s.store, k) != {} && k !in s.store.jobs {
      ApprovedRuns(s, k);
      assert P.MakesJob(BigStep(s, k).log[|s.log|], k, uid);
    } else {
      OneWriteMakesNoJob(s, k, Malformed, uid);
      OneWriteMakesNoJob(s, k, Pending, uid);
      OneWriteMakesNoJob(s, k, Conflicted, uid);
    }
  }

  /** Why an operator must not lose track: once it has, the removal of the first Job leads to a second
      one for the same incarnation. */
  lemma StoppedOperatorRepeats(s: System, k: Key, a: Action)
    requires P.Posting(s, k) && (a == StopRequest(k) || a == StepRequest(k, Fails))
    requires P.EverMade(s.log, k, s.store.requests[k].uid)
    requires Proceeds(s.store, k) && ReviewsOf(s.store, k) != {}
    ensures Repeated(WholeRequest(Step(Step(s, a), SetJob(k, None)), k).log, k, s.store.requests[k].uid)
  {
    var uid := s.store.requests[k].uid;
    var s1 := Step(Step(s, a), SetJob(k, None));
    LostAndGone(s, k, a);
    InputsWithoutJob(s.store, s1.store, k);
    SecondJobExactly(s1, k);
    WholeIsBigStep(s1, k);
    ApprovedRuns(s1, k);
    var log := WholeRequest(s1, k).log;
    var i :| 0 <= i < |s.log| && P.MakesJob(s.log[i], k, uid);
    assert log[i] == s.log[i] && P.MakesJob(log[|s.log|], k, uid);
  }

  lemma LostAndGone(s: System, k: Key, a: Action)
    requires P.Posting(s, k) && (a == StopRequest(k) || a == StepRequest(k, Fails))
    ensures var s1 := Step(Step(s, a), SetJob(k, None));
            s1.store == s.store.(jobs := s.store.jobs - {k}) && s1.log == s.log && Idle(s1, k)
  {
    if a == StepRequest(k, Fails) {
      OwnPost(s, k, Fails);
    } else {
      StoppedPost(s, k);
    }
  }

  lemma InputsWithoutJob(st: Store, st': Store, k: Key)
    requires Proceeds(st, k) && st' == st.(jobs := st.jobs - {k})
    ensures Proceeds(st', k) && ReviewsOf(st', k) == ReviewsOf(st, k)
  {
  }

  /* ---------- a reconcile on its way ---------- */

  /** The reconcile's own calls are answered. */
  predicate Answers(schedule: seq<Turn>) {
    forall t | t in schedule :: t.outcome == Ok
  }

  /** All but perhaps call number `n` are. */
  predicate AnswersBut(schedule: seq<Turn>, n: nat) {
    forall i | 0 <= i < |schedule| && i != n :: schedule[i].outcome == Ok
  }

  /** How call number `n` ends. */
  function OutcomeAt(schedule: seq<Turn>, n: nat): Outcome {
    if n < |schedule| then schedule[n].outcome else Ok
  }

  function AfterCall(s: System, schedule: seq<Turn>, k: Key): System {
    Step(Met(s, schedule), StepRequest(k, Head(schedule).outcome))
  }

  /** The system that the reconcile's call number `n` from here meets. */
  function MetAt(s: System, schedule: seq<Turn>, k: Key, n: nat): System
    decreases n
  {
    if n == 0 then Met(s, schedule) else MetAt(AfterCall(s, schedule, k), Tail(schedule), k, n - 1)
  }

  lemma MetNext(s: System, schedule: seq<Turn>, k: Key, n: nat)
    ensures MetAt(s, schedule, k, n + 1) == MetAt(AfterCall(s, schedule, k), Tail(schedule), k, n)
  {
  }

  lemma NextTurn(schedule: seq<Turn>, n: nat)
    ensures Answers(schedule) ==> Head(schedule).outcome == Ok && Answers(Tail(schedule)) && AnswersBut(schedule, n)
    ensures n > 0 && AnswersBut(schedule, n) ==>
              && Head(schedule).outcome == Ok && AnswersBut(Tail(schedule), n - 1)
              && OutcomeAt(Tail(schedule), n - 1) == OutcomeAt(schedule, n)
    ensures AnswersBut(schedule, 0) ==> Answers(Tail(schedule)) && OutcomeAt(schedule, 0) == Head(schedule).outcome
  {
  }

  lemma CallAfter(m: System, k: Key, task: RequestTask, outcome: Outcome)
    requires Stored(m.requestTasks, k) == Some(task)
    ensures var s' := Step(m, StepRequest(k, outcome));
            && Stored(s'.requestTasks, k) == RequestNext(m, k, task, outcome)
            && s'.store == RequestEffect(m, k, task, outcome).store
  {
    RequestEffectLocal(m, k, task, outcome);
  }

  /** One call of the reconcile, after the others' turn. */
  lemma OwnCall(s: System, schedule: seq<Turn>, k: Key, task: RequestTask)
    requires Inv(s) && Foreign(schedule, k) && Stored(s.requestTasks, k) == Some(task)
    ensures var m, s', outcome := Met(s, schedule), AfterCall(s, schedule, k), Head(schedule).outcome;
            && Inv(m) && Holds(Stored(m.store.requests, k), k, task) && Inv(s') && Foreign(Tail(schedule), k)
            && Stored(s'.requestTasks, k) == RequestNext(m, k, task, outcome) && s'.store == RequestEffect(m, k, task, outcome).store
            && GoOn(s, schedule, k) == GoOn(s', Tail(schedule), k)
  {
    var m := Met(s, schedule);
    MeetingKeepsTask(s, schedule, k);
    RunKeepsInv(s, Head(schedule).others);
    StepKeepsInv(m, StepRequest(k, Head(schedule).outcome));
    CallAfter(m, k, task, Head(schedule).outcome);
  }

  /** A call that goes on with `next`, and what is left of the way. */
  lemma GoesOn(s: System, schedule: seq<Turn>, k: Key, task: RequestTask, next: RequestTask)
    requires Inv(s) && Foreign(schedule, k) && Stored(s.requestTasks, k) == Some(task)
    requires RequestNext(Met(s, schedule), k, task, Head(schedule).outcome) == Some(next)
    ensures var s' := AfterCall(s, schedule, k);
            && Inv(s') && Foreign(Tail(schedule), k) && Stored(s'.requestTasks, k) == Some(next)
            && GoOn(s, schedule, k) == GoOn(s', Tail(schedule), k)
  {
    OwnCall(s, schedule, k, task);
  }

  /** Nobody else changes a request that is not Pending. */
  lemma {:induction false} OthersKeepRequest(s: System, actions: seq<Action>, k: Key)
    requires Inv(s) && ForeignActions(actions, k) && k in s.store.requests && s.store.requests[k].status.state != Pending
    ensures Stored(Run(s, actions).store.requests, k) == Stored(s.store.requests, k)
    decreases |actions|
  {
    if actions != [] {
      var prefix, a := actions[..|actions| - 1], actions[|actions| - 1];
      assert !OwnRequest(a, k) && forall x | x in prefix :: x in actions;
      OthersKeepRequest(s, prefix, k);
      RunKeepsInv(s, prefix);
      NotDecidedOn(Run(s, prefix), a, k);
      P.OthersLeaveAlone(Run(s, prefix), a, k);
    }
  }

  lemma MeetsRequest(s: System, schedule: seq<Turn>, k: Key)
    requires Inv(s) && Foreign(schedule, k) && k in s.store.requests && s.store.requests[k].status.state != Pending
    ensures Stored(Met(s, schedule).store.requests, k) == Stored(s.store.requests, k)
  {
    assert ForeignActions(Head(schedule).others, k);
    OthersKeepRequest(s, Head(schedule).others, k);
  }

  function LastState(first: RequestState, rest: seq<RequestState>): RequestState {
    if rest == [] then first else rest[|rest| - 1]
  }

  lemma LastStateTail(first: RequestState, rest: seq<RequestState>)
    requires rest != []
    ensures LastState(first, rest) == LastState(rest[0], rest[1..])
    ensures Finals(rest) ==> Finals(rest[1..]) && rest[0] != Pending
  {
  }

  /** What an answered update from the stored copy leaves, and goes on with. */
  lemma UpdateAnswered(m: System, k: Key, jr: JobRequest, status: RequestStatus, rest: seq<RequestState>)
    requires Stored(m.store.requests, k) == Some(jr)
    ensures var task := Writing(jr, status, rest);
            var now := Stored(RequestEffect(m, k, task, Ok).store.requests, k);
            && now.Some? && SameRequest(now.value, jr) && now.value.status == status
            && RequestNext(m, k, task, Ok) == NextWrite(now.value, status, rest)
  {
  }

  /** One update from the stored copy of a request that is not Pending is applied. */
  lemma WritesOne(s: System, schedule: seq<Turn>, k: Key, jr: JobRequest, status: RequestStatus, rest: seq<RequestState>)
    requires Inv(s) && Foreign(schedule, k) && Answers(schedule)
    requires Stored(s.requestTasks, k) == Some(Writing(jr, status, rest)) && Stored(s.store.requests, k) == Some(jr)
    requires jr.status.state != Pending
    ensures var s' := AfterCall(s, schedule, k);
            var now := Stored(s'.store.requests, k);
            && Inv(s') && Foreign(Tail(schedule), k) && Answers(Tail(schedule))
            && now.Some? && SameRequest(now.value, jr) && now.value.status == status
            && Stored(s'.requestTasks, k) == NextWrite(now.value, status, rest)
            && GoOn(s, schedule, k) == GoOn(s', Tail(schedule), k)
  {
    MeetsRequest(s, schedule, k);
    NextTurn(schedule, 0);
    OwnCall(s, schedule, k, Writing(jr, status, rest));
    UpdateAnswered(Met(s, schedule), k, jr, status, rest);
  }

  lemma OverIsEnd(s: System, schedule: seq<Turn>, k: Key)
    requires Foreign(schedule, k) && Stored(s.requestTasks, k) == None
    ensures GoOn(s, schedule, k) == s
  {
  }

  /** Updates from the stored copy of a request that is not Pending are applied, whatever others do
      between them. */
  lemma {:induction false} FromWriting(s: System, schedule: seq<Turn>, k: Key, jr: JobRequest, status: RequestStatus,
                                       rest: seq<RequestState>)
    requires Inv(s) && Foreign(schedule, k) && Answers(schedule)
    requires Stored(s.requestTasks, k) == Some(Writing(jr, status, rest)) && Stored(s.store.requests, k) == Some(jr)
    requires jr.status.state != Pending && (rest != [] ==> status.state != Pending) && Finals(rest)
    ensures var end := GoOn(s, schedule, k);
            && k in end.store.requests && SameRequest(end.store.requests[k], jr)
            && end.store.requests[k].status == status.(state := LastState(status.state, rest))
    decreases |rest|
  {
    WritesOne(s, schedule, k, jr, status, rest);
    var s' := AfterCall(s, schedule, k);
    if rest == [] {
      OverIsEnd(s', Tail(schedule), k);
    } else {
      LastStateTail(status.state, rest);
      FromWriting(s', Tail(schedule), k, s'.store.requests[k], status.(state := rest[0]), rest[1..]);
    }
  }

  /* ---------- on the way to the Job ---------- */

  /** The deployment and container that the request names are there. */
  predicate Available(st: Store, k: Key, jr: JobRequest) {
    DeploymentKey(k, jr) in st.deployments && JobFor(st.deployments[DeploymentKey(k, jr)], jr).template.containers != []
  }

  /** On the way from reading `jr` to looking its Job up, the request is found young and in order, and
      a review is listed. */
  predicate ReachesJob(s: System, schedule: seq<Turn>, k: Key, jr: JobRequest) {
    && IdentityOf(jr.requestedBy).Some?
    && !Expired(MetAt(s, schedule, k, 0).store, jr.created)
    && Available(MetAt(s, schedule, k, 1).store, k, jr)
    && ReviewsOf(MetAt(s, schedule, k, 2).store, k) != {}
  }

  lemma YoungGoesOn(m: System, k: Key, jr: JobRequest)
    requires !Expired(m.store, jr.created) && IdentityOf(jr.requestedBy).Some? && !Terminal(jr.status.state)
    ensures RequestNext(m, k, Fetched(jr), Ok) == Some(FindingDeployment(jr))
  {
  }

  /** The calls of a reconcile that reaches the Job of an Approved or Started request, up to its look-up:
      what is left of it. */
  lemma Arrives(s: System, schedule: seq<Turn>, k: Key, jr: JobRequest) returns (t: System, rest: seq<Turn>, job: Job)
    requires Inv(s) && Foreign(schedule, k) && AnswersBut(schedule, 3)
    requires Stored(s.requestTasks, k) == Some(Fetched(jr)) && ReachesJob(s, schedule, k, jr)
    requires jr.status.state == Approved || jr.status.state == Started
    ensures Inv(t) && Foreign(rest, k) && AnswersBut(rest, 0) && OutcomeAt(rest, 0) == OutcomeAt(schedule, 3)
    ensures Stored(t.requestTasks, k) == Some(if jr.status.state == Approved then LookingUpJob(jr, job) else CheckingJob(jr))
    ensures GoOn(s, schedule, k) == GoOn(t, rest, k) && MetAt(s, schedule, k, 3) == Met(t, rest)
  {
    NextTurn(schedule, 3);
    YoungGoesOn(Met(s, schedule), k, jr);
    GoesOn(s, schedule, k, Fetched(jr), FindingDeployment(jr));
    MetNext(s, schedule, k, 0);
    MetNext(s, schedule, k, 1);
    MetNext(s, schedule, k, 2);
    t, rest, job := ArrivesFromDeployment(AfterCall(s, schedule, k), Tail(schedule), k, jr);
  }

  lemma ArrivesFromDeployment(s: System, schedule: seq<Turn>, k: Key, jr: JobRequest)
    returns (t: System, rest: seq<Turn>, job: Job)
    requires Inv(s) && Foreign(schedule, k) && AnswersBut(schedule, 2)
    requires Stored(s.requestTasks, k) == Some(FindingDeployment(jr))
    requires Available(MetAt(s, schedule, k, 0).store, k, jr) && ReviewsOf(MetAt(s, schedule, k, 1).store, k) != {}
    requires jr.status.state == Approved || jr.status.state == Started
    ensures Inv(t) && Foreign(rest, k) && AnswersBut(rest, 0) && OutcomeAt(rest, 0) == OutcomeAt(schedule, 2)
    ensures Stored(t.requestTasks, k) == Some(if jr.status.state == Approved then LookingUpJob(jr, job) else CheckingJob(jr))
    ensures GoOn(s, schedule, k) == GoOn(t, rest, k) && MetAt(s, schedule, k, 2) == Met(t, rest)
  {
    job := JobFor(Met(s, schedule).store.deployments[DeploymentKey(k, jr)], jr);
    NextTurn(schedule, 2);
    GoesOn(s, schedule, k, FindingDeployment(jr), FindingReviews(jr, job));
    MetNext(s, schedule, k, 0);
    MetNext(s, schedule, k, 1);
    t, rest := ArrivesFromListing(AfterCall(s, schedule, k), Tail(schedule), k, jr, job);
  }

  lemma ArrivesFromListing(s: System, schedule: seq<Turn>, k: Key, jr: JobRequest, job: Job) returns (t: System, rest: seq<Turn>)
    requires Inv(s) && Foreign(schedule, k) && AnswersBut(schedule, 1)
    requires Stored(s.requestTasks, k) == Some(FindingReviews(jr, job)) && ReviewsOf(Met(s, schedule).store, k) != {}
    requires jr.status.state == Approved || jr.status.state == Started
    ensures Inv(t) && Foreign(rest, k) && AnswersBut(rest, 0) && OutcomeAt(rest, 0) == OutcomeAt(schedule, 1)
    ensures Stored(t.requestTasks, k) == Some(if jr.status.state == Approved then LookingUpJob(jr, job) else CheckingJob(jr))
    ensures GoOn(s, schedule, k) == GoOn(t, rest, k) && MetAt(s, schedule, k, 1) == Met(t, rest)
  {
    var next := if jr.status.state == Approved then LookingUpJob(jr, job) else CheckingJob(jr);
    NextTurn(schedule, 1);
    GoesOn(s, schedule, k, FindingReviews(jr, job), next);
    MetNext(s, schedule, k, 0);
    t, rest := AfterCall(s, schedule, k), Tail(schedule);
  }

  /* ---------- the Job is there ---------- */

  lemma HeldIsStored(s: System, k: Key, task: RequestTask)
    requires Inv(s) && Stored(s.requestTasks, k) == Some(task)
    requires task.CreatingJob? || task.CheckingJob? || task.Rereading? || (task.Writing? && task.jr.status.state == Approved)
             || (task.Writing? && task.jr.status.state == Started && task.status.state == Malformed)
    ensures Stored(s.store.requests, k) == Some(task.jr)
    ensures !task.Writing? ==> task.jr.status.state == (if task.CreatingJob? then Approved else Started)
  {
    assert Holds(Stored(s.store.requests, k), k, task);
  }

  lemma FromCreating(s: System, schedule: seq<Turn>, k: Key, jr: JobRequest, job: Job)
    requires Inv(s) && Foreign(schedule, k) && Answers(schedule) && Stored(s.requestTasks, k) == Some(CreatingJob(jr, job))
    ensures var end := GoOn(s, schedule, k);
            k in end.store.requests && end.store.requests[k].status.state != Conflicted
  {
    var next := AfterCreate(k, jr, k !in Met(s, schedule).store.jobs);
    NextTurn(schedule, 0);
    HeldIsStored(s, k, CreatingJob(jr, job));
    GoesOn(s, schedule, k, CreatingJob(jr, job), next);
    HeldIsStored(AfterCall(s, schedule, k), k, next);
    FromWriting(AfterCall(s, schedule, k), Tail(schedule), k, jr, next.status, []);
  }

  /** The end of an Approved request, seen from the call that looks its Job up. */
  predicate EndsByLookUp(met: System, end: System, k: Key, jr: JobRequest) {
    && k in end.store.requests
    && (end.store.requests[k].status.state == Conflicted <==> k in met.store.jobs)
    && (k in met.store.jobs ==>
          end.store.requests[k].status == jr.status.(state := Conflicted) && SameRequest(end.store.requests[k], jr))
  }

  lemma FromLookUp(s: System, schedule: seq<Turn>, k: Key, jr: JobRequest, job: Job)
    requires Inv(s) && Foreign(schedule, k) && Answers(schedule)
    requires Stored(s.requestTasks, k) == Some(LookingUpJob(jr, job)) && jr.status.state == Approved
    ensures EndsByLookUp(Met(s, schedule), GoOn(s, schedule, k), k, jr)
  {
    NextTurn(schedule, 0);
    if k in Met(s, schedule).store.jobs {
      GoesOn(s, schedule, k, LookingUpJob(jr, job), Move(jr, Conflicted));
      HeldIsStored(AfterCall(s, schedule, k), k, Move(jr, Conflicted));
      FromWriting(AfterCall(s, schedule, k), Tail(schedule), k, jr, jr.WithState(Conflicted).status, []);
    } else {
      GoesOn(s, schedule, k, LookingUpJob(jr, job), CreatingJob(jr, job));
      FromCreating(AfterCall(s, schedule, k), Tail(schedule), k, jr, job);
    }
  }

  /** A reconcile that has read Approved, finds the request young and in order, lists a review and has
      its calls answered ends Conflicted exactly when the Job is there as it looks it up, whatever
      others do between its calls. */
  lemma RecoveryExactly(s: System, schedule: seq<Turn>, k: Key, jr: JobRequest)
    requires Inv(s) && Foreign(schedule, k) && Answers(schedule) && jr.status.state == Approved
    requires Stored(s.requestTasks, k) == Some(Fetched(jr)) && ReachesJob(s, schedule, k, jr)
    ensures EndsByLookUp(MetAt(s, schedule, k, 3), GoOn(s, schedule, k), k, jr)
  {
    var t, rest, job := Arrives(s, schedule, k, jr);
    FromLookUp(t, rest, k, jr, job);
  }

  /** Nobody touches the Job before the reconcile's call number `n` from here. */
  predicate JobLeftAlone(schedule: seq<Turn>, k: Key, n: nat) {
    forall i | 0 <= i <= n && i < |schedule| :: forall a | a in schedule[i].others :: !(a.SetJob? && a.key == k)
  }

  lemma {:induction false} JobStays(s: System, actions: seq<Action>, k: Key)
    requires k in s.store.jobs && forall a | a in actions :: !(a.SetJob? && a.key == k)
    ensures var s' := Run(s, actions); k in s'.store.jobs && s'.store.jobs[k] == s.store.jobs[k]
    decreases |actions|
  {
    if actions != [] {
      JobStays(s, actions[..|actions| - 1], k);
      ExistingJobStays(Run(s, actions[..|actions| - 1]), actions[|actions| - 1], k);
    }
  }

  lemma {:induction false} JobIsMet(s: System, schedule: seq<Turn>, k: Key, n: nat)
    requires k in s.store.jobs && JobLeftAlone(schedule, k, n)
    ensures var m := MetAt(s, schedule, k, n); k in m.store.jobs && m.store.jobs[k] == s.store.jobs[k]
    decreases n
  {
    JobStays(s, Head(schedule).others, k);
    if n > 0 {
      ExistingJobStays(Met(s, schedule), StepRequest(k, Head(schedule).outcome), k);
      forall i | 0 <= i <= n - 1 && i < |Tail(schedule)|
        ensures forall a | a in Tail(schedule)[i].others :: !(a.SetJob? && a.key == k)
      {
        assert Tail(schedule)[i] == schedule[i + 1];
      }
      JobIsMet(AfterCall(s, schedule, k), Tail(schedule), k, n - 1);
    }
  }

  /** Recovery: while the Job it lost track of is left alone, the next reconcile that reads Approved
      and gets as far as the Job ends Conflicted, and says nothing else about the request. */
  lemma RecoveryEndsConflicted(s: System, schedule: seq<Turn>, k: Key, jr: JobRequest)
    requires Inv(s) && Foreign(schedule, k) && Answers(schedule) && jr.status.state == Approved
    requires Stored(s.requestTasks, k) == Some(Fetched(jr)) && ReachesJob(s, schedule, k, jr)
    requires k in s.store.jobs && JobLeftAlone(schedule, k, 3)
    ensures var end := GoOn(s, schedule, k);
            && k in end.store.requests && end.store.requests[k].status == jr.status.(state := Conflicted)
            && SameRequest(end.store.requests[k], jr)
  {
    JobIsMet(s, schedule, k, 3);
    RecoveryExactly(s, schedule, k, jr);
  }

  /* ---------- how a Started request ends ---------- */

  /** The last outcome that the conditions report, or Started while there is none. */
  function LastOutcome(conditions: seq<Condition>): RequestState {
    LastState(Started, FinalStates(conditions))
  }

  predicate ReportsState(c: Condition, state: RequestState) {
    c.isTrue && ((state == Complete && c.kind == JobComplete) || (state == Failed && c.kind == JobFailed))
  }

  predicate NothingReported(conditions: seq<Condition>) {
    forall c | c in conditions :: !ReportsState(c, Complete) && !ReportsState(c, Failed)
  }

  /** Condition `i` reports the outcome, and none after it reports any. */
  predicate ReportedLast(conditions: seq<Condition>, i: nat, state: RequestState) {
    i < |conditions| && ReportsState(conditions[i], state) && NothingReported(conditions[i + 1..])
  }

  lemma NoneWrittenExactly(conditions: seq<Condition>)
    ensures FinalStates(conditions) == [] <==> NothingReported(conditions)
  {
    FinalStatesFrom(conditions);
    if FinalStates(conditions) != [] {
      assert FinalStates(conditions)[0] in FinalStates(conditions);
    }
  }

  lemma ReportedLater(conditions: seq<Condition>, i: nat, state: RequestState)
    requires conditions != []
    ensures ReportedLast(conditions, i + 1, state) <==> ReportedLast(conditions[1..], i, state)
    ensures ReportedLast(conditions, 0, state) <==> ReportsState(conditions[0], state) && NothingReported(conditions[1..])
  {
    if i + 1 < |conditions| {
      assert conditions[1..][i + 1..] == conditions[i + 1 + 1..];
    }
  }

  lemma ReportedSomewhere(conditions: seq<Condition>, state: RequestState)
    requires conditions != []
    ensures (exists i: nat :: ReportedLast(conditions, i, state))
            <==> (exists i: nat :: ReportedLast(conditions[1..], i, state))
                 || (ReportsState(conditions[0], state) && NothingReported(conditions[1..]))
  {
    if i: nat :| ReportedLast(conditions, i, state) {
      if i > 0 {
        ReportedLater(conditions, i - 1, state);
      }
    }
    if i: nat :| ReportedLast(conditions[1..], i, state) {
      ReportedLater(conditions, i, state);
    }
    ReportedLater(conditions, 0, state);
  }

  /** The state written last is that of the last condition that reports an outcome; it stays Started
      exactly when none does. */
  lemma {:induction false} LastOutcomeExactly(conditions: seq<Condition>)
    ensures LastOutcome(conditions) == Complete <==> exists i: nat :: ReportedLast(conditions, i, Complete)
    ensures LastOutcome(conditions) == Failed <==> exists i: nat :: ReportedLast(conditions, i, Failed)
    ensures LastOutcome(conditions) == Started <==> NothingReported(conditions)
    ensures LastOutcome(conditions) in {Complete, Failed, Started}
  {
    NoneWrittenExactly(conditions);
    if conditions != [] {
      var c, rest := conditions[0], conditions[1..];
      LastOutcomeExactly(rest);
      NoneWrittenExactly(rest);
      ReportedSomewhere(conditions, Complete);
      ReportedSomewhere(conditions, Failed);
      LastOfLoop(conditions);
      assert conditions == [c] + rest;
    }
  }

  lemma LastOfLoop(conditions: seq<Condition>)
    requires conditions != []
    ensures LastOutcome(conditions) ==
              if FinalStates(conditions[1..]) != [] then LastOutcome(conditions[1..])
              else if ReportsState(conditions[0], Complete) then Complete
              else if ReportsState(conditions[0], Failed) then Failed
              else Started
  {
  }

  /** The end of a Started request, by the answer to the look-up of its Job. */
  predicate EndsByJob(reply: Reply<Job>, end: System, k: Key, jr: JobRequest) {
    && k in end.store.requests && SameRequest(end.store.requests[k], jr)
    && end.store.requests[k].status == jr.status.(state := if reply.Found? then LastOutcome(reply.value.conditions) else Malformed)
  }

  lemma FromRereading(s: System, schedule: seq<Turn>, k: Key, jr: JobRequest, conditions: seq<Condition>)
    requires Inv(s) && Foreign(schedule, k) && Answers(schedule) && Stored(s.requestTasks, k) == Some(Rereading(jr, conditions))
    ensures var end := GoOn(s, schedule, k);
            && k in end.store.requests && SameRequest(end.store.requests[k], jr)
            && end.store.requests[k].status == jr.status.(state := LastOutcome(conditions))
  {
    var states := FinalStates(conditions);
    HeldIsStored(s, k, Rereading(jr, conditions));
    MeetsRequest(s, schedule, k);
    NextTurn(schedule, 0);
    FinalStatesAreFinal(conditions);
    OwnCall(s, schedule, k, Rereading(jr, conditions));
    var s' := AfterCall(s, schedule, k);
    if states == [] {
      OverIsEnd(s', Tail(schedule), k);
    } else {
      LastStateTail(Started, states);
      FromWriting(s', Tail(schedule), k, jr, jr.status.(state := states[0]), states[1..]);
    }
  }

  lemma FromChecking(s: System, schedule: seq<Turn>, k: Key, jr: JobRequest)
    requires Inv(s) && Foreign(schedule, k) && AnswersBut(schedule, 0) && Stored(s.requestTasks, k) == Some(CheckingJob(jr))
    ensures EndsByJob(Reading(Met(s, schedule).store.jobs, k, Head(schedule).outcome), GoOn(s, schedule, k), k, jr)
  {
    var reply := Reading(Met(s, schedule).store.jobs, k, Head(schedule).outcome);
    NextTurn(schedule, 0);
    HeldIsStored(s, k, CheckingJob(jr));
    GoesOn(s, schedule, k, CheckingJob(jr), AfterCheck(jr, reply));
    if reply.Found? {
      FromRereading(AfterCall(s, schedule, k), Tail(schedule), k, jr, reply.value.conditions);
    } else {
      HeldIsStored(AfterCall(s, schedule, k), k, Move(jr, Malformed));
      FromWriting(AfterCall(s, schedule, k), Tail(schedule), k, jr, jr.WithState(Malformed).status, []);
    }
  }

  /** A reconcile that has read Started, finds the request young and in order and lists a review ends
      Malformed exactly when the look-up of its Job fails or the Job is not there as it looks it up, be
      that Job running all the same; else it ends in the last outcome that the Job it met reports. */
  lemma StartedEndsExactly(s: System, schedule: seq<Turn>, k: Key, jr: JobRequest)
    requires Inv(s) && Foreign(schedule, k) && AnswersBut(schedule, 3) && jr.status.state == Started
    requires Stored(s.requestTasks, k) == Some(Fetched(jr)) && ReachesJob(s, schedule, k, jr)
    ensures var jobs, end := MetAt(s, schedule, k, 3).store.jobs, GoOn(s, schedule, k);
            && EndsByJob(Reading(jobs, k, OutcomeAt(schedule, 3)), end, k, jr)
            && (end.store.requests[k].status.state == Malformed <==> OutcomeAt(schedule, 3) != Ok || k !in jobs)
  {
    var t, rest, _ := Arrives(s, schedule, k, jr);
    NextTurn(rest, 0);
    FromChecking(t, rest, k, jr);
    if OutcomeAt(schedule, 3) == Ok && k in Met(t, rest).store.jobs {
      LastOutcomeExactly(Met(t, rest).store.jobs[k].conditions);
    }
  }

  predicate EndedBadly(state: RequestState) {
    state == Malformed || state == Conflicted
  }

  lemma NoWayOut(log: seq<Event>, e: Event, k: Key)
    requires Allowed(log, e) && k in Requests(log) && EndedBadly(Requests(log)[k].status.state)
    ensures var m := ApplyToRequests(Requests(log), e); k in m ==> m[k] == Requests(log)[k]
  {
  }

  /** And that is for good: no step of anybody changes a Malformed or Conflicted request but its delete. */
  lemma EndsForGood(s: System, a: Action, k: Key)
    requires Inv(s) && k in s.store.requests && EndedBadly(s.store.requests[k].status.state)
    ensures var s' := Step(s, a); k in s'.store.requests ==> s'.store.requests[k] == s.store.requests[k]
  {
    StepRefinesAtomic(s, a);
    if Step(s, a).log != s.log {
      NoWayOut(s.log, Last(Step(s, a).log), k);
    }
  }
}
