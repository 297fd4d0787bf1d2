/** How a JobRequest reconcile ends, for every way in which its calls may end and whatever others do
    between them. The predicates say what each call is to make of what it meets, in the fields of the
    objects stored; the proofs say that the protocol does that and nothing else. */
module Endings {
  import opened Api
  import opened UserIdentity
  import opened Protocol
  import opened Invariant
  import opened Sequential
  import opened Schedule
  import opened Recovery
  import J = Jobs

  /* ---------- what is met ---------- */

  /** A review of request `k` is stored. */
  predicate Listed(st: Store, k: Key) {
    exists rk | rk in st.reviews :: rk.namespace == k.namespace && st.reviews[rk].requestName == k.name
  }

  /** The Deployment that the request names is stored, and has a container of the name that it names. */
  predicate HasTarget(st: Store, k: Key, jr: JobRequest) {
    var d := Key(k.namespace, jr.spec.deployment);
    d in st.deployments && exists c | c in st.deployments[d].template.containers :: c.name == jr.spec.container
  }

  /** The annotation names somebody. */
  ghost predicate NamesSomebody(annotation: Option<string>) {
    exists user :: NamesUser(annotation, user)
  }

  /* ---------- what is done about it ---------- */

  /** The reconcile is over with this call, which writes nothing. */
  predicate OverEnds(s: System, schedule: seq<Turn>, end: System) {
    end.store == Met(s, schedule).store
  }

  /** The last call deletes the request, unless it has no effect. */
  predicate RemovalEnds(s: System, schedule: seq<Turn>, k: Key, end: System) {
    var m := Met(s, schedule).store;
    end.store == if Head(schedule).outcome == Fails then m else m.(requests := m.requests - {k})
  }

  /** The last call is an update to `status`. It is applied exactly when it has an effect and the request
      stored is the one in hand. */
  predicate UpdateEnds(s: System, schedule: seq<Turn>, k: Key, jr: JobRequest, status: RequestStatus, end: System) {
    Updated(Met(s, schedule).store, Head(schedule).outcome, end.store, k, jr, status)
  }

  predicate Updated(m: Store, outcome: Outcome, st: Store, k: Key, jr: JobRequest, status: RequestStatus) {
    && st == m.(requests := st.requests, requestRev := st.requestRev)
    && st.requests - {k} == m.requests - {k}
    && if outcome != Fails && Stored(m.requests, k) == Some(jr)
       then k in st.requests && SameRequest(st.requests[k], jr) && st.requests[k].status == status
       else Stored(st.requests, k) == Stored(m.requests, k)
  }

  /** From the call on that finds the age of the request read. */
  ghost predicate FetchedEnds(s: System, schedule: seq<Turn>, k: Key, jr: JobRequest, end: System) {
    var st := Met(s, schedule).store;
    var next, rest := AfterCall(s, schedule, k), Tail(schedule);
    if st.clock - jr.created >= st.ttl then RemovalEnds(next, rest, k, end)
    else if jr.status.state in {Complete, Failed, Malformed, Conflicted} then OverEnds(s, schedule, end)
    else if !NamesSomebody(jr.requestedBy) then UpdateEnds(next, rest, k, jr, jr.status.(state := Malformed), end)
    else TargetEnds(next, rest, k, jr, end)
  }

  /** From the call on that lists Deployments. */
  ghost predicate TargetEnds(s: System, schedule: seq<Turn>, k: Key, jr: JobRequest, end: System) {
    var next, rest := AfterCall(s, schedule, k), Tail(schedule);
    if Head(schedule).outcome != Ok then OverEnds(s, schedule, end)
    else if !HasTarget(Met(s, schedule).store, k, jr) then UpdateEnds(next, rest, k, jr, jr.status.(state := Malformed), end)
    else ReviewsEnd(next, rest, k, jr, Met(s, schedule).store.deployments[Key(k.namespace, jr.spec.deployment)], end)
  }

  /** From the call on that lists reviews, with the Deployment found. */
  ghost predicate ReviewsEnd(s: System, schedule: seq<Turn>, k: Key, jr: JobRequest, d: Deployment, end: System) {
    var next, rest := AfterCall(s, schedule, k), Tail(schedule);
    if Head(schedule).outcome != Ok || !Listed(Met(s, schedule).store, k)
    then UpdateEnds(next, rest, k, jr, jr.status.(state := Pending), end)
    else
      match jr.status.state
      case Pending => UpdateEnds(next, rest, k, jr, jr.status, end)
      case Approved => ApprovedEnds(next, rest, k, jr, d, end)
      case Started => StartedEnds(next, rest, k, jr, end)
      case _ => OverEnds(s, schedule, end)
  }

  /** From the call on that looks the Job of an Approved request up: found, the request ends Conflicted;
      not found, the Job is created next; with an error the reconcile is over. */
  ghost predicate ApprovedEnds(s: System, schedule: seq<Turn>, k: Key, jr: JobRequest, d: Deployment, end: System) {
    var next, rest := AfterCall(s, schedule, k), Tail(schedule);
    if Head(schedule).outcome != Ok then OverEnds(s, schedule, end)
    else if k in Met(s, schedule).store.jobs then UpdateEnds(next, rest, k, jr, jr.status.(state := Conflicted), end)
    else CreationEnds(next, rest, k, jr, d, end)
  }

  /** From the call on that creates the Job: the request ends Started exactly when that was answered and
      no Job was there, else Malformed. The Job is there whenever the call had its effect. */
  ghost predicate CreationEnds(s: System, schedule: seq<Turn>, k: Key, jr: JobRequest, d: Deployment, end: System) {
    var m, o := Met(s, schedule).store, Head(schedule).outcome;
    var next, rest := AfterCall(s, schedule, k), Tail(schedule);
    && UpdateEnds(next, rest, k, jr,
                  if o == Ok && k !in m.jobs then RequestStatus(k.name, Started, jr.status.reviewName)
                  else jr.status.(state := Malformed), end)
    && if o == Fails || k in m.jobs then next.store == m
       else
         && next.store == m.(jobs := next.store.jobs) && k in next.store.jobs && next.store.jobs - {k} == m.jobs
         && J.RunsRequest(next.store.jobs[k], jr) && J.CarriesOver(next.store.jobs[k], d)
         && next.store.jobs[k].template.containers == TargetContainers(d.template.containers, jr.spec)
  }

  /** From the call on that looks the Job of a Started request up. */
  ghost predicate StartedEnds(s: System, schedule: seq<Turn>, k: Key, jr: JobRequest, end: System) {
    var jobs := Met(s, schedule).store.jobs;
    var next, rest := AfterCall(s, schedule, k), Tail(schedule);
    if Head(schedule).outcome != Ok || k !in jobs then UpdateEnds(next, rest, k, jr, jr.status.(state := Malformed), end)
    else if Head(rest).outcome != Ok then OverEnds(next, rest, end)
    else EndsIn(end, k, jr, OutcomesEnd(Tail(rest), Started, true, jobs[k].conditions))
  }

  /** The request is there in the end as it was read but in this state. */
  predicate EndsIn(end: System, k: Key, jr: JobRequest, state: RequestState) {
    k in end.store.requests && SameRequest(end.store.requests[k], jr) && end.store.requests[k].status == jr.status.(state := state)
  }

  /** The state after the loop over the conditions, from state `now`. `current` says that the copy in hand
      is the stored one, which it no longer is once an update was applied but reported as failed. */
  function OutcomesEnd(schedule: seq<Turn>, now: RequestState, current: bool, conditions: seq<Condition>): RequestState
    decreases |conditions|
  {
    if conditions == [] then now
    else
      var c, o := conditions[0], Head(schedule).outcome;
      if !c.isTrue || (c.kind != JobComplete && c.kind != JobFailed) then OutcomesEnd(schedule, now, current, conditions[1..])
      else if !current || o == Fails then OutcomesEnd(Tail(schedule), now, current, conditions[1..])
      else
        var to := if c.kind == JobComplete then Complete else Failed;
        OutcomesEnd(Tail(schedule), to, o == Ok || to == now, conditions[1..])
  }

  /** A whole reconcile: one that cannot read the request does nothing. */
  ghost predicate ReconcileEnds(s: System, schedule: seq<Turn>, k: Key, end: System) {
    var m, o := Met(s, schedule), Head(schedule).outcome;
    if o == Ok && k in m.store.requests
    then FetchedEnds(Step(m, StartRequest(k, o)), Tail(schedule), k, m.store.requests[k], end)
    else end == m
  }

  /* ---------- last calls ---------- */

  /** A call that only reads and after which the reconcile is over. */
  lemma StopsHere(s: System, schedule: seq<Turn>, k: Key, task: RequestTask)
    requires Inv(s) && Foreign(schedule, k) && Stored(s.requestTasks, k) == Some(task)
    requires !task.Deleting? && !task.CreatingJob? && !task.Writing?
    requires RequestNext(Met(s, schedule), k, task, Head(schedule).outcome) == None
    ensures OverEnds(s, schedule, GoOn(s, schedule, k))
  {
    OwnCall(s, schedule, k, task);
    OverIsEnd(AfterCall(s, schedule, k), Tail(schedule), k);
  }

  lemma RemovesHere(s: System, schedule: seq<Turn>, k: Key, jr: JobRequest)
    requires Inv(s) && Foreign(schedule, k) && Stored(s.requestTasks, k) == Some(Deleting(jr))
    ensures RemovalEnds(s, schedule, k, GoOn(s, schedule, k))
  {
    OwnCall(s, schedule, k, Deleting(jr));
    OverIsEnd(AfterCall(s, schedule, k), Tail(schedule), k);
  }

  lemma PutThenDrop<T>(m: map<Key, T>, k: Key, v: T)
    ensures m[k := v] - {k} == m - {k}
  {
  }

  lemma PutIsUpdate(m: System, k: Key, jr: JobRequest, status: RequestStatus, decider: Option<Decider>, outcome: Outcome)
    requires Stored(m.store.requests, k) == Some(jr) && outcome != Fails
    ensures Updated(m.store, outcome, PutStatus(m, k, status, decider).store, k, jr, status)
  {
    var now := jr.(version := Rev(m.store.requestRev, k) + 1, status := status);
    PutThenDrop(m.store.requests, k, now);
  }

  lemma SentIsUpdate(m: System, k: Key, jr: JobRequest, status: RequestStatus, outcome: Outcome)
    requires Inv(m) && Holds(Stored(m.store.requests, k), k, Writing(jr, status, []))
    ensures Updated(m.store, outcome, RequestEffect(m, k, Writing(jr, status, []), outcome).store, k, jr, status)
  {
    if outcome != Fails && Fresh(m.store, k, jr) {
      UpdateIsTransition(m, k, jr, status, []);
      PutIsUpdate(m, k, jr, status, None, outcome);
    } else {
      assert RequestEffect(m, k, Writing(jr, status, []), outcome) == m;
    }
  }

  lemma UpdatesHere(s: System, schedule: seq<Turn>, k: Key, jr: JobRequest, status: RequestStatus)
    requires Inv(s) && Foreign(schedule, k) && Stored(s.requestTasks, k) == Some(Writing(jr, status, []))
    ensures UpdateEnds(s, schedule, k, jr, status, GoOn(s, schedule, k))
  {
    OwnCall(s, schedule, k, Writing(jr, status, []));
    OverIsEnd(AfterCall(s, schedule, k), Tail(schedule), k);
    SentIsUpdate(Met(s, schedule), k, jr, status, Head(schedule).outcome);
  }

  /** A call after which one update is left. */
  lemma ThenUpdates(s: System, schedule: seq<Turn>, k: Key, jr: JobRequest, task: RequestTask, status: RequestStatus)
    requires Inv(s) && Foreign(schedule, k) && Stored(s.requestTasks, k) == Some(task)
    requires RequestNext(Met(s, schedule), k, task, Head(schedule).outcome) == Some(Writing(jr, status, []))
    ensures UpdateEnds(AfterCall(s, schedule, k), Tail(schedule), k, jr, status, GoOn(s, schedule, k))
  {
    GoesOn(s, schedule, k, task, Writing(jr, status, []));
    UpdatesHere(AfterCall(s, schedule, k), Tail(schedule), k, jr, status);
  }

  /* ---------- an Approved request ---------- */

  /** The Job that the call creates, if it has its effect. */
  lemma CreatesExactly(m: System, k: Key, jr: JobRequest, d: Deployment, outcome: Outcome)
    requires JobFor(d, jr).template.containers != []
    ensures var st := RequestEffect(m, k, CreatingJob(jr, JobFor(d, jr)), outcome).store;
            if outcome == Fails || k in m.store.jobs then st == m.store
            else
              && st == m.store.(jobs := st.jobs) && k in st.jobs && st.jobs - {k} == m.store.jobs
              && J.RunsRequest(st.jobs[k], jr) && J.CarriesOver(st.jobs[k], d)
              && st.jobs[k].template.containers == TargetContainers(d.template.containers, jr.spec)
  {
    J.JobForRunsRequest(d, jr);
    if k !in m.store.jobs {
      assert m.store.jobs[k := JobFor(d, jr)] - {k} == m.store.jobs;
    }
  }

  lemma FromCreation(s: System, schedule: seq<Turn>, k: Key, jr: JobRequest, d: Deployment)
    requires Inv(s) && Foreign(schedule, k) && Stored(s.requestTasks, k) == Some(CreatingJob(jr, JobFor(d, jr)))
    requires JobFor(d, jr).template.containers != []
    ensures CreationEnds(s, schedule, k, jr, d, GoOn(s, schedule, k))
  {
    var o := Head(schedule).outcome;
    var task := CreatingJob(jr, JobFor(d, jr));
    OwnCall(s, schedule, k, task);
    CreatesExactly(Met(s, schedule), k, jr, d, o);
    ThenUpdates(s, schedule, k, jr, task, AfterCreate(k, jr, o == Ok && k !in Met(s, schedule).store.jobs).status);
  }

  lemma FromApproved(s: System, schedule: seq<Turn>, k: Key, jr: JobRequest, d: Deployment)
    requires Inv(s) && Foreign(schedule, k) && Stored(s.requestTasks, k) == Some(LookingUpJob(jr, JobFor(d, jr)))
    requires JobFor(d, jr).template.containers != []
    ensures ApprovedEnds(s, schedule, k, jr, d, GoOn(s, schedule, k))
  {
    var task := LookingUpJob(jr, JobFor(d, jr));
    if Head(schedule).outcome != Ok {
      StopsHere(s, schedule, k, task);
    } else if k in Met(s, schedule).store.jobs {
      ThenUpdates(s, schedule, k, jr, task, jr.status.(state := Conflicted));
    } else {
      GoesOn(s, schedule, k, task, CreatingJob(jr, JobFor(d, jr)));
      FromCreation(AfterCall(s, schedule, k), Tail(schedule), k, jr, d);
    }
  }

  /** A look-up that errs changes no request and ends the reconcile. */
  lemma FailedLookUp(s: System, schedule: seq<Turn>, k: Key, jr: JobRequest, job: Job)
    requires Inv(s) && Foreign(schedule, k) && Stored(s.requestTasks, k) == Some(LookingUpJob(jr, job))
    requires Head(schedule).outcome != Ok
    ensures var end := GoOn(s, schedule, k);
            end.store == Met(s, schedule).store && Idle(end, k) && Stored(end.store.requests, k) == Some(jr)
  {
    OwnCall(s, schedule, k, LookingUpJob(jr, job));
    OverIsEnd(AfterCall(s, schedule, k), Tail(schedule), k);
  }

  /** From the call that creates the Job, if the update after it has its effect: the request ends Started
      exactly when the call was answered and no Job was there, and else Malformed. */
  lemma CreationExactly(s: System, schedule: seq<Turn>, k: Key, jr: JobRequest, d: Deployment)
    requires Inv(s) && Foreign(schedule, k) && Stored(s.requestTasks, k) == Some(CreatingJob(jr, JobFor(d, jr)))
    requires JobFor(d, jr).template.containers != [] && Head(Tail(schedule)).outcome != Fails
    ensures var made := Head(schedule).outcome == Ok && k !in Met(s, schedule).store.jobs;
            var end := GoOn(s, schedule, k).store;
            && k in end.requests && SameRequest(end.requests[k], jr)
            && (end.requests[k].status.state == Started <==> made) && (end.requests[k].status.state == Malformed <==> !made)
            && (made ==> end.requests[k].status.jobName == k.name)
  {
    var o, next, rest := Head(schedule).outcome, AfterCall(s, schedule, k), Tail(schedule);
    var after := AfterCreate(k, jr, o == Ok && k !in Met(s, schedule).store.jobs);
    FromCreation(s, schedule, k, jr, d);
    HeldIsStored(s, k, CreatingJob(jr, JobFor(d, jr)));
    GoesOn(s, schedule, k, CreatingJob(jr, JobFor(d, jr)), after);
    HeldIsStored(next, k, after);
    MeetsRequest(next, rest, k);
  }

  /* ---------- a Started request ---------- */

  /** The loop in the states it writes. */
  function StatesEnd(schedule: seq<Turn>, now: RequestState, current: bool, states: seq<RequestState>): RequestState
    decreases |states|
  {
    if states == [] then now
    else if !current || Head(schedule).outcome == Fails then StatesEnd(Tail(schedule), now, current, states[1..])
    else StatesEnd(Tail(schedule), states[0], Head(schedule).outcome == Ok || states[0] == now, states[1..])
  }

  lemma {:induction false} OutcomesAreStates(schedule: seq<Turn>, now: RequestState, current: bool, conditions: seq<Condition>)
    ensures OutcomesEnd(schedule, now, current, conditions) == StatesEnd(schedule, now, current, FinalStates(conditions))
    decreases |conditions|
  {
    if conditions != [] {
      var c, o := conditions[0], Head(schedule).outcome;
      if !c.isTrue || (c.kind != JobComplete && c.kind != JobFailed) {
        OutcomesAreStates(schedule, now, current, conditions[1..]);
        assert FinalStates(conditions) == FinalStates(conditions[1..]);
      } else {
        var to := if c.kind == JobComplete then Complete else Failed;
        assert FinalStates(conditions) == [to] + FinalStates(conditions[1..]);
        if !current || o == Fails {
          OutcomesAreStates(Tail(schedule), now, current, conditions[1..]);
        } else {
          OutcomesAreStates(Tail(schedule), to, o == Ok || to == now, conditions[1..]);
        }
      }
    }
  }

  /** In the loop: the request stored is `jr` in another state, and the copy in hand is it, or out of
      date. */
  predicate Looping(s: System, k: Key, jr: JobRequest, held: JobRequest, current: bool) {
    && k in s.store.requests
    && var now := s.store.requests[k];
       && SameRequest(now, jr) && now.status == jr.status.(state := now.status.state) && InLoop(now.status.state)
       && (current <==> now == held) && (held.version == now.version ==> now == held)
  }

  /** Whether the copy in hand is the stored one after an update from it to state `to`. */
  predicate StaysCurrent(current: bool, outcome: Outcome, now: RequestState, to: RequestState) {
    if !current || outcome == Fails then current else outcome == Ok || to == now
  }

  /** What one update of the loop leaves, from the system it meets. */
  lemma LoopCall(m: System, k: Key, jr: JobRequest, held: JobRequest, current: bool, status: RequestStatus,
                 rest: seq<RequestState>, outcome: Outcome)
    requires Inv(m) && Looping(m, k, jr, held, current) && Holds(Stored(m.store.requests, k), k, Writing(held, status, rest))
    requires status == jr.status.(state := status.state) && InLoop(status.state)
    ensures var e, now := RequestEffect(m, k, Writing(held, status, rest), outcome), m.store.requests[k].status.state;
            && Looping(e, k, jr, CopyAfter(m, k, held, status, outcome), StaysCurrent(current, outcome, now, status.state))
            && e.store.requests[k].status.state == if !current || outcome == Fails then now else status.state
  {
    if Fresh(m.store, k, held) {
      UpdateIsTransition(m, k, held, status, rest);
      assert held.version <= Rev(m.store.requestRev, k);
      if outcome != Fails {
        PutWritten(m, k, status);
      }
    }
  }

  lemma PutWritten(m: System, k: Key, status: RequestStatus)
    requires k in m.store.requests
    ensures var was, st := m.store.requests[k], PutStatus(m, k, status, None).store;
            && k in st.requests
            && st.requests[k] == if status == was.status then was
                                 else was.(version := Rev(m.store.requestRev, k) + 1, status := status)
  {
  }

  /** One turn of the loop. */
  lemma LoopTurn(s: System, schedule: seq<Turn>, k: Key, jr: JobRequest, held: JobRequest, current: bool,
                 status: RequestStatus, rest: seq<RequestState>)
    requires Inv(s) && Foreign(schedule, k) && Stored(s.requestTasks, k) == Some(Writing(held, status, rest))
    requires Looping(s, k, jr, held, current) && status == jr.status.(state := status.state) && InLoop(status.state)
    ensures var s', o, now := AfterCall(s, schedule, k), Head(schedule).outcome, s.store.requests[k].status.state;
            var copy := CopyAfter(Met(s, schedule), k, held, status, o);
            && Inv(s') && Foreign(Tail(schedule), k) && GoOn(s, schedule, k) == GoOn(s', Tail(schedule), k)
            && Stored(s'.requestTasks, k) == NextWrite(copy, status, rest)
            && Looping(s', k, jr, copy, StaysCurrent(current, o, now, status.state))
            && s'.store.requests[k].status.state == if !current || o == Fails then now else status.state
  {
    MeetsRequest(s, schedule, k);
    OwnCall(s, schedule, k, Writing(held, status, rest));
    LoopCall(Met(s, schedule), k, jr, held, current, status, rest, Head(schedule).outcome);
  }

  lemma StatesTurn(schedule: seq<Turn>, now: RequestState, current: bool, state: RequestState, rest: seq<RequestState>)
    ensures var o := Head(schedule).outcome;
            StatesEnd(schedule, now, current, [state] + rest)
            == StatesEnd(Tail(schedule), if !current || o == Fails then now else state, StaysCurrent(current, o, now, state), rest)
  {
    assert ([state] + rest)[1..] == rest;
  }

  lemma {:induction false} LoopEnds(s: System, schedule: seq<Turn>, k: Key, jr: JobRequest, held: JobRequest, current: bool,
                                    status: RequestStatus, rest: seq<RequestState>)
    requires Inv(s) && Foreign(schedule, k) && Stored(s.requestTasks, k) == Some(Writing(held, status, rest))
    requires Looping(s, k, jr, held, current) && status == jr.status.(state := status.state)
    requires InLoop(status.state) && Finals(rest)
    ensures EndsIn(GoOn(s, schedule, k), k, jr,
                   StatesEnd(schedule, s.store.requests[k].status.state, current, [status.state] + rest))
    decreases |rest|
  {
    var s', o, now := AfterCall(s, schedule, k), Head(schedule).outcome, s.store.requests[k].status.state;
    LoopTurn(s, schedule, k, jr, held, current, status, rest);
    StatesTurn(schedule, now, current, status.state, rest);
    if rest == [] {
      OverIsEnd(s', Tail(schedule), k);
    } else {
      assert [rest[0]] + rest[1..] == rest && Finals(rest[1..]);
      LoopEnds(s', Tail(schedule), k, jr, CopyAfter(Met(s, schedule), k, held, status, o),
               StaysCurrent(current, o, now, status.state), status.(state := rest[0]), rest[1..]);
    }
  }

  lemma ReadsAgain(s: System, schedule: seq<Turn>, k: Key, jr: JobRequest, conditions: seq<Condition>)
    requires Inv(s) && Foreign(schedule, k) && Stored(s.requestTasks, k) == Some(Rereading(jr, conditions))
    requires Head(schedule).outcome == Ok
    ensures var s' := AfterCall(s, schedule, k);
            && Inv(s') && Foreign(Tail(schedule), k) && GoOn(s, schedule, k) == GoOn(s', Tail(schedule), k)
            && Stored(s'.requestTasks, k) == NextWrite(jr, jr.status, FinalStates(conditions))
            && Stored(s'.store.requests, k) == Some(jr) && jr.status.state == Started
  {
    HeldIsStored(s, k, Rereading(jr, conditions));
    MeetsRequest(s, schedule, k);
    OwnCall(s, schedule, k, Rereading(jr, conditions));
  }

  /** From the second read on, which is answered. */
  lemma FromReread(s: System, schedule: seq<Turn>, k: Key, jr: JobRequest, conditions: seq<Condition>)
    requires Inv(s) && Foreign(schedule, k) && Stored(s.requestTasks, k) == Some(Rereading(jr, conditions))
    requires Head(schedule).outcome == Ok
    ensures EndsIn(GoOn(s, schedule, k), k, jr, OutcomesEnd(Tail(schedule), Started, true, conditions))
  {
    var states, s' := FinalStates(conditions), AfterCall(s, schedule, k);
    ReadsAgain(s, schedule, k, jr, conditions);
    FinalStatesAreFinal(conditions);
    OutcomesAreStates(Tail(schedule), Started, true, conditions);
    if states == [] {
      OverIsEnd(s', Tail(schedule), k);
    } else {
      assert [states[0]] + states[1..] == states && Finals(states[1..]);
      LoopEnds(s', Tail(schedule), k, jr, jr, true, jr.status.(state := states[0]), states[1..]);
    }
  }

  /** From the look-up on that finds the Job with these conditions. */
  lemma FromFound(s: System, schedule: seq<Turn>, k: Key, jr: JobRequest, conditions: seq<Condition>)
    requires Inv(s) && Foreign(schedule, k) && Stored(s.requestTasks, k) == Some(CheckingJob(jr))
    requires RequestNext(Met(s, schedule), k, CheckingJob(jr), Head(schedule).outcome) == Some(Rereading(jr, conditions))
    ensures var next, rest, end := AfterCall(s, schedule, k), Tail(schedule), GoOn(s, schedule, k);
            if Head(rest).outcome != Ok then OverEnds(next, rest, end)
            else EndsIn(end, k, jr, OutcomesEnd(Tail(rest), Started, true, conditions))
  {
    var next, rest, task := AfterCall(s, schedule, k), Tail(schedule), Rereading(jr, conditions);
    GoesOn(s, schedule, k, CheckingJob(jr), task);
    if Head(rest).outcome != Ok {
      StopsHere(next, rest, k, task);
    } else {
      FromReread(next, rest, k, jr, conditions);
    }
  }

  lemma FromStarted(s: System, schedule: seq<Turn>, k: Key, jr: JobRequest)
    requires Inv(s) && Foreign(schedule, k) && Stored(s.requestTasks, k) == Some(CheckingJob(jr))
    ensures StartedEnds(s, schedule, k, jr, GoOn(s, schedule, k))
  {
    var jobs := Met(s, schedule).store.jobs;
    if Head(schedule).outcome != Ok || k !in jobs {
      ThenUpdates(s, schedule, k, jr, CheckingJob(jr), jr.status.(state := Malformed));
    } else {
      FromFound(s, schedule, k, jr, jobs[k].conditions);
    }
  }

  /* ---------- from the beginning ---------- */

  lemma ListedExactly(st: Store, k: Key)
    ensures Listed(st, k) <==> ReviewsOf(st, k) != {}
  {
    if rk :| rk in st.reviews && rk.namespace == k.namespace && st.reviews[rk].requestName == k.name {
      assert rk in ReviewsOf(st, k);
    }
    if ReviewsOf(st, k) != {} {
      var rk :| rk in ReviewsOf(st, k);
      assert rk in st.reviews;
    }
  }

  /** The answer of the call that lists reviews, and what it leads to. */
  lemma ReviewsExactly(m: System, k: Key, jr: JobRequest, job: Job, outcome: Outcome)
    ensures RequestNext(m, k, FindingReviews(jr, job), outcome) ==
              if outcome != Ok || !Listed(m.store, k) || jr.status.state == Pending
              then Some(Writing(jr, jr.status.(state := Pending), []))
              else if jr.status.state == Approved then Some(LookingUpJob(jr, job))
              else if jr.status.state == Started then Some(CheckingJob(jr))
              else None
  {
    ListedExactly(m.store, k);
  }

  lemma FromReviews(s: System, schedule: seq<Turn>, k: Key, jr: JobRequest, d: Deployment)
    requires Inv(s) && Foreign(schedule, k) && Stored(s.requestTasks, k) == Some(FindingReviews(jr, JobFor(d, jr)))
    requires JobFor(d, jr).template.containers != []
    ensures ReviewsEnd(s, schedule, k, jr, d, GoOn(s, schedule, k))
  {
    var task := FindingReviews(jr, JobFor(d, jr));
    ReviewsExactly(Met(s, schedule), k, jr, JobFor(d, jr), Head(schedule).outcome);
    if Head(schedule).outcome != Ok || !Listed(Met(s, schedule).store, k) || jr.status.state == Pending {
      ThenUpdates(s, schedule, k, jr, task, jr.status.(state := Pending));
    } else if jr.status.state == Approved {
      GoesOn(s, schedule, k, task, LookingUpJob(jr, JobFor(d, jr)));
      FromApproved(AfterCall(s, schedule, k), Tail(schedule), k, jr, d);
    } else if jr.status.state == Started {
      GoesOn(s, schedule, k, task, CheckingJob(jr));
      FromStarted(AfterCall(s, schedule, k), Tail(schedule), k, jr);
    } else {
      StopsHere(s, schedule, k, task);
    }
  }

  /** The call that lists Deployments answers with the one of the request's namespace and the name in its
      spec, and finds a target exactly when that has a container of the wanted name. */
  lemma TargetExactly(m: System, k: Key, jr: JobRequest, outcome: Outcome)
    ensures var d := Key(k.namespace, jr.spec.deployment);
            RequestNext(m, k, FindingDeployment(jr), outcome) ==
              if outcome != Ok then None
              else if !HasTarget(m.store, k, jr) then Some(Writing(jr, jr.status.(state := Malformed), []))
              else Some(FindingReviews(jr, JobFor(m.store.deployments[d], jr)))
  {
    if Key(k.namespace, jr.spec.deployment) in m.store.deployments {
      J.SomethingToRun(m.store.deployments[Key(k.namespace, jr.spec.deployment)], jr);
    }
  }

  lemma FromTarget(s: System, schedule: seq<Turn>, k: Key, jr: JobRequest)
    requires Inv(s) && Foreign(schedule, k) && Stored(s.requestTasks, k) == Some(FindingDeployment(jr))
    ensures TargetEnds(s, schedule, k, jr, GoOn(s, schedule, k))
  {
    var m, task := Met(s, schedule), FindingDeployment(jr);
    TargetExactly(m, k, jr, Head(schedule).outcome);
    if Head(schedule).outcome != Ok {
      StopsHere(s, schedule, k, task);
    } else if !HasTarget(m.store, k, jr) {
      ThenUpdates(s, schedule, k, jr, task, jr.status.(state := Malformed));
    } else {
      var d := m.store.deployments[Key(k.namespace, jr.spec.deployment)];
      J.SomethingToRun(d, jr);
      GoesOn(s, schedule, k, task, FindingReviews(jr, JobFor(d, jr)));
      FromReviews(AfterCall(s, schedule, k), Tail(schedule), k, jr, d);
    }
  }

  /** What the request turns out to be once its age is known. */
  lemma AgeExactly(m: System, k: Key, jr: JobRequest, outcome: Outcome)
    ensures RequestNext(m, k, Fetched(jr), outcome) ==
              if m.store.clock - jr.created >= m.store.ttl then Some(Deleting(jr))
              else if jr.status.state in {Complete, Failed, Malformed, Conflicted} then None
              else if !NamesSomebody(jr.requestedBy) then Some(Writing(jr, jr.status.(state := Malformed), []))
              else Some(FindingDeployment(jr))
  {
    IdentityExactly(jr.requestedBy);
  }

  lemma FromFetched(s: System, schedule: seq<Turn>, k: Key, jr: JobRequest)
    requires Inv(s) && Foreign(schedule, k) && Stored(s.requestTasks, k) == Some(Fetched(jr))
    ensures FetchedEnds(s, schedule, k, jr, GoOn(s, schedule, k))
  {
    var st, task := Met(s, schedule).store, Fetched(jr);
    AgeExactly(Met(s, schedule), k, jr, Head(schedule).outcome);
    if st.clock - jr.created >= st.ttl {
      GoesOn(s, schedule, k, task, Deleting(jr));
      RemovesHere(AfterCall(s, schedule, k), Tail(schedule), k, jr);
    } else if jr.status.state in {Complete, Failed, Malformed, Conflicted} {
      StopsHere(s, schedule, k, task);
    } else if !NamesSomebody(jr.requestedBy) {
      ThenUpdates(s, schedule, k, jr, task, jr.status.(state := Malformed));
    } else {
      GoesOn(s, schedule, k, task, FindingDeployment(jr));
      FromTarget(AfterCall(s, schedule, k), Tail(schedule), k, jr);
    }
  }

  lemma Begins(s: System, schedule: seq<Turn>, k: Key)
    requires Inv(s) && Foreign(schedule, k) && Idle(s, k)
    ensures var m, o := Met(s, schedule), Head(schedule).outcome;
            var s' := Step(m, StartRequest(k, o));
            && Inv(s') && Foreign(Tail(schedule), k)
            && if o == Ok && k in m.store.requests then Stored(s'.requestTasks, k) == Some(Fetched(m.store.requests[k]))
               else s' == m && Idle(m, k)
  {
    MeetingKeepsTask(s, schedule, k);
    RunKeepsInv(s, Head(schedule).others);
    StepKeepsInv(Met(s, schedule), StartRequest(k, Head(schedule).outcome));
  }

  /** Every reconcile ends so, whatever others do between its calls and however these end. */
  lemma ScheduledEnds(s: System, schedule: seq<Turn>, k: Key)
    requires Inv(s) && Foreign(schedule, k) && Idle(s, k)
    ensures ReconcileEnds(s, schedule, k, Scheduled(s, schedule, k))
  {
    var m, o := Met(s, schedule), Head(schedule).outcome;
    Begins(s, schedule, k);
    if o == Ok && k in m.store.requests {
      FromFetched(Step(m, StartRequest(k, o)), Tail(schedule), k, m.store.requests[k]);
    } else {
      OverIsEnd(m, Tail(schedule), k);
    }
  }

  /** From every state that meets the invariant of runs. */
  lemma ReconcileOnCourse(s: System, schedule: seq<Turn>, k: Key)
    requires Foreign(schedule, k) && Idle(s, k)
    ensures Inv(s) ==> ReconcileEnds(s, schedule, k, Scheduled(s, schedule, k))
  {
    if Inv(s) {
      ScheduledEnds(s, schedule, k);
    }
  }

  lemma StartedOnCourse(s: System, schedule: seq<Turn>, k: Key, jr: JobRequest)
    requires Foreign(schedule, k) && Stored(s.requestTasks, k) == Some(CheckingJob(jr))
    ensures Inv(s) ==> StartedEnds(s, schedule, k, jr, GoOn(s, schedule, k))
  {
    if Inv(s) {
      FromStarted(s, schedule, k, jr);
    }
  }

  /* ---------- the age of a request ---------- */

  lemma {:induction false} OthersNeverRemove(s: System, actions: seq<Action>, k: Key)
    requires ForeignActions(actions, k) && k in s.store.requests
    ensures k in Run(s, actions).store.requests
    decreases |actions|
  {
    if actions != [] {
      var prefix, a := actions[..|actions| - 1], actions[|actions| - 1];
      assert !OwnRequest(a, k) && forall x | x in prefix :: x in actions;
      OthersNeverRemove(s, prefix, k);
      OtherNeverRemoves(Run(s, prefix), a, k);
    }
  }

  lemma OtherNeverRemoves(s: System, a: Action, k: Key)
    requires !OwnRequest(a, k) && k in s.store.requests
    ensures k in Step(s, a).store.requests
  {
    if a.StepRequest? && a.key in s.requestTasks {
      RequestEffectLocal(s, a.key, s.requestTasks[a.key], a.outcome);
      assert Stored(RequestEffect(s, a.key, s.requestTasks[a.key], a.outcome).store.requests, k) == Stored(s.store.requests, k);
    } else if a.StepReview? && a.key in s.reviewTasks {
      ReviewNeverRemoves(s, a.key, s.reviewTasks[a.key], a.outcome, k);
    } else if !a.StepRequest? && !a.StepReview? {
      WorldNeverRemoves(s, a, k);
    }
  }

  lemma ReviewNeverRemoves(s: System, rk: Key, task: ReviewTask, outcome: Outcome, k: Key)
    requires k in s.store.requests
    ensures k in ReviewEffect(s, rk, task, outcome).store.requests
  {
  }

  lemma WorldNeverRemoves(s: System, a: Action, k: Key)
    requires k in s.store.requests && !a.StepRequest? && !a.StepReview?
    ensures k in Step(s, a).store.requests
  {
  }

  /** A call of the reconcile that is not a delete leaves the request there, and leads to no delete unless
      it finds the request old. */
  lemma OwnCallKeeps(m: System, k: Key, task: RequestTask, outcome: Outcome)
    requires k in m.store.requests && !task.Deleting?
    ensures k in RequestEffect(m, k, task, outcome).store.requests
    ensures var next := RequestNext(m, k, task, outcome);
            next.Some? && next.value.Deleting? ==> task.Fetched? && m.store.clock - task.jr.created >= m.store.ttl
  {
  }

  lemma {:induction false} NotRemoved(s: System, schedule: seq<Turn>, k: Key)
    requires Foreign(schedule, k) && k in s.store.requests
    requires k in s.requestTasks ==> !s.requestTasks[k].Fetched? && !s.requestTasks[k].Deleting?
    ensures k in GoOn(s, schedule, k).store.requests
    decreases if k in s.requestTasks then Phase(s.requestTasks[k]) else 0,
              if k in s.requestTasks then WritesLeft(s.requestTasks[k]) else 0
  {
    if k in s.requestTasks {
      var m, task, o := Met(s, schedule), s.requestTasks[k], Head(schedule).outcome;
      MeetingKeepsTask(s, schedule, k);
      assert ForeignActions(Head(schedule).others, k);
      OthersNeverRemove(s, Head(schedule).others, k);
      OwnCallKeeps(m, k, task, o);
      CallAfter(m, k, task, o);
      assert k in m.requestTasks && m.requestTasks[k] == task;
      NotRemoved(Step(m, StepRequest(k, o)), Tail(schedule), k);
    }
  }

  /** A reconcile that has read a request removes it exactly when it finds it past its lifetime and the
      delete has its effect, whatever others do. */
  lemma RemovedExactly(s: System, schedule: seq<Turn>, k: Key, jr: JobRequest)
    requires Inv(s) && Foreign(schedule, k) && Stored(s.requestTasks, k) == Some(Fetched(jr))
    ensures var st := Met(s, schedule).store;
            k !in GoOn(s, schedule, k).store.requests
            <==> st.clock - jr.created >= st.ttl && Head(Tail(schedule)).outcome != Fails
  {
    var m, next, rest := Met(s, schedule), AfterCall(s, schedule, k), Tail(schedule);
    FromFetched(s, schedule, k, jr);
    OwnCall(s, schedule, k, Fetched(jr));
    if m.store.clock - jr.created >= m.store.ttl {
      OwnCall(next, rest, k, Deleting(jr));
    } else {
      OwnCallKeeps(m, k, Fetched(jr), Head(schedule).outcome);
      AgeExactly(m, k, jr, Head(schedule).outcome);
      NotRemoved(next, rest, k);
    }
  }

  /** The delete removes the request exactly when the call has its effect. */
  lemma DeletingExactly(s: System, k: Key, outcome: Outcome)
    requires k in s.requestTasks && s.requestTasks[k].Deleting?
    ensures var st, st' := s.store, Step(s, StepRequest(k, outcome)).store;
            st' == st.(requests := st'.requests) && st'.requests == if outcome == Fails then st.requests else st.requests - {k}
  {
    CallAfter(s, k, s.requestTasks[k], outcome);
    if k !in s.store.requests {
      assert s.store.requests - {k} == s.store.requests;
    }
  }

  /** Everything but request `k` and its Job is as it was. */
  predicate SparesOthers(st: Store, st': Store, k: Key) {
    && st' == st.(requests := st'.requests, requestRev := st'.requestRev, jobs := st'.jobs)
    && st'.requests - {k} == st.requests - {k} && st'.jobs - {k} == st.jobs - {k}
  }

  lemma SparesTwice(a: Store, b: Store, c: Store, k: Key)
    requires SparesOthers(a, b, k) && SparesOthers(b, c, k)
    ensures SparesOthers(a, c, k)
  {
  }

  lemma PutSpares(s: System, k: Key, status: RequestStatus)
    requires k in s.store.requests
    ensures k in PutStatus(s, k, status, None).store.requests
    ensures SparesOthers(s.store, PutStatus(s, k, status, None).store, k)
  {
    PutThenDrop(s.store.requests, k, s.store.requests[k].(version := Rev(s.store.requestRev, k) + 1, status := status));
  }

  lemma {:induction false} PutStatesSpare(s: System, k: Key, states: seq<RequestState>)
    requires k in s.store.requests
    ensures k in PutStates(s, k, states).store.requests
    ensures SparesOthers(s.store, PutStates(s, k, states).store, k)
    decreases |states|
  {
    if states != [] {
      var s1 := PutState(s, k, states[0]);
      PutSpares(s, k, s.store.requests[k].status.(state := states[0]));
      PutStatesSpare(s1, k, states[1..]);
      SparesTwice(s.store, s1.store, PutStates(s1, k, states[1..]).store, k);
    }
  }

  lemma ApprovedSpares(s: System, k: Key)
    requires k in s.store.requests && Inputs(s.store, k) && s.store.requests[k].status.state == Approved
    ensures k in Decided(s, k).store.requests && SparesOthers(s.store, Decided(s, k).store, k)
  {
    var jr := s.store.requests[k];
    if k in s.store.jobs {
      PutSpares(s, k, jr.status.(state := Conflicted));
    } else {
      RunSpares(s, k, jr, JobFor(s.store.deployments[DeploymentKey(k, jr)], jr), jr.status.(state := Started, jobName := k.name));
    }
  }

  lemma RunSpares(s: System, k: Key, jr: JobRequest, job: Job, status: RequestStatus)
    requires k in s.store.requests
    ensures var s' := PutStatus(MakeJob(s, k, jr, job), k, status, None); k in s'.store.requests && SparesOthers(s.store, s'.store, k)
  {
    var s1 := MakeJob(s, k, jr, job);
    PutThenDrop(s.store.jobs, k, job);
    PutSpares(s1, k, status);
    SparesTwice(s.store, s1.store, PutStatus(s1, k, status, None).store, k);
  }

  lemma StartedSpares(s: System, k: Key)
    requires k in s.store.requests && Inputs(s.store, k) && s.store.requests[k].status.state == Started
    ensures k in Decided(s, k).store.requests && SparesOthers(s.store, Decided(s, k).store, k)
  {
    if k in s.store.jobs {
      PutStatesSpare(s, k, FinalStates(s.store.jobs[k].conditions));
    } else {
      PutSpares(s, k, s.store.requests[k].status.(state := Malformed));
    }
  }

  lemma DecidedSpares(s: System, k: Key)
    requires k in s.store.requests && Inputs(s.store, k)
    ensures k in Decided(s, k).store.requests && SparesOthers(s.store, Decided(s, k).store, k)
  {
    match s.store.requests[k].status.state
    case Approved => ApprovedSpares(s, k);
    case Started => StartedSpares(s, k);
    case _ =>
  }

  /** An undisturbed reconcile of a stored request removes it exactly when it is past its lifetime, and
      whatever it does it leaves every review, every other request and every other Job as it was. */
  lemma PrunesRequestExactly(s: System, k: Key)
    requires Idle(s, k) && k in s.store.requests
    ensures var st, st' := s.store, WholeRequest(s, k).store;
            && (k !in st'.requests <==> st.clock - st.requests[k].created >= st.ttl)
            && SparesOthers(st, st', k) && (k !in st'.requests ==> st'.jobs == st.jobs)
  {
    WholeIsBigStep(s, k);
    if Proceeds(s.store, k) && ReviewsOf(s.store, k) != {} {
      DecidedSpares(s, k);
    } else if Proceeds(s.store, k) {
      PutSpares(s, k, s.store.requests[k].status.(state := Pending));
    } else {
      PutSpares(s, k, s.store.requests[k].status.(state := Malformed));
    }
  }

  /* ---------- a reconcile that nobody disturbs ---------- */

  /** The request is in order exactly when it names somebody and its target is there. */
  lemma InputsExactly(st: Store, k: Key)
    requires k in st.requests
    ensures Inputs(st, k) <==> NamesSomebody(st.requests[k].requestedBy) && HasTarget(st, k, st.requests[k])
  {
    var jr := st.requests[k];
    IdentityExactly(jr.requestedBy);
    if Key(k.namespace, jr.spec.deployment) in st.deployments {
      J.SomethingToRun(st.deployments[Key(k.namespace, jr.spec.deployment)], jr);
    }
  }

  /** The status in the end of a request that was read young and with an end still to come. */
  ghost function StatusInTheEnd(st: Store, k: Key, jr: JobRequest): RequestStatus {
    if !NamesSomebody(jr.requestedBy) || !HasTarget(st, k, jr) then jr.status.(state := Malformed)
    else if !Listed(st, k) then jr.status.(state := Pending)
    else
      match jr.status.state
      case Approved =>
        if k in st.jobs then jr.status.(state := Conflicted) else RequestStatus(k.name, Started, jr.status.reviewName)
      case Started =>
        jr.status.(state := if k in st.jobs then LastOutcome(st.jobs[k].conditions) else Malformed)
      case _ => jr.status
  }

  /** The Job in the end, if the reconcile creates one: it is made from the Deployment that the request
      names. */
  ghost predicate JobInTheEnd(st: Store, k: Key, jr: JobRequest, jobs: map<Key, Job>) {
    if NamesSomebody(jr.requestedBy) && HasTarget(st, k, jr) && Listed(st, k) && jr.status.state == Approved && k !in st.jobs
    then
      var d := st.deployments[Key(k.namespace, jr.spec.deployment)];
      && k in jobs && J.RunsRequest(jobs[k], jr) && J.CarriesOver(jobs[k], d)
      && jobs[k].template.containers == TargetContainers(d.template.containers, jr.spec)
    else jobs == st.jobs
  }

  lemma {:induction false} PutStatesStatus(s: System, k: Key, states: seq<RequestState>)
    requires k in s.store.requests
    ensures var was, s' := s.store.requests[k], PutStates(s, k, states);
            && k in s'.store.requests && SameRequest(s'.store.requests[k], was) && s'.store.jobs == s.store.jobs
            && s'.store.requests[k].status == was.status.(state := LastState(was.status.state, states))
    decreases |states|
  {
    if states != [] {
      PutStatusKeeps(s, k, s.store.requests[k].status.(state := states[0]));
      PutStatesStatus(PutState(s, k, states[0]), k, states[1..]);
      LastStateTail(s.store.requests[k].status.state, states);
    }
  }

  lemma ApprovedInTheEnd(s: System, k: Key)
    requires k in s.store.requests && Inputs(s.store, k) && s.store.requests[k].status.state == Approved && Listed(s.store, k)
    ensures var st, jr, end := s.store, s.store.requests[k], Decided(s, k).store;
            && k in end.requests && SameRequest(end.requests[k], jr)
            && end.requests[k].status == StatusInTheEnd(st, k, jr) && JobInTheEnd(st, k, jr, end.jobs)
  {
    var jr := s.store.requests[k];
    InputsExactly(s.store, k);
    if k in s.store.jobs {
      PutStatusKeeps(s, k, jr.status.(state := Conflicted));
    } else {
      var d := s.store.deployments[DeploymentKey(k, jr)];
      J.JobForRunsRequest(d, jr);
      PutStatusKeeps(MakeJob(s, k, jr, JobFor(d, jr)), k, jr.status.(state := Started, jobName := k.name));
    }
  }

  lemma StartedInTheEnd(s: System, k: Key)
    requires k in s.store.requests && Inputs(s.store, k) && s.store.requests[k].status.state == Started && Listed(s.store, k)
    ensures var st, jr, end := s.store, s.store.requests[k], Decided(s, k).store;
            && k in end.requests && SameRequest(end.requests[k], jr)
            && end.requests[k].status == StatusInTheEnd(st, k, jr) && end.jobs == st.jobs
  {
    InputsExactly(s.store, k);
    if k in s.store.jobs {
      PutStatesStatus(s, k, FinalStates(s.store.jobs[k].conditions));
    } else {
      PutStatusKeeps(s, k, s.store.requests[k].status.(state := Malformed));
    }
  }

  /** An undisturbed reconcile of a young request with an end still to come, state by state. */
  lemma WholeEndsExactly(s: System, k: Key)
    requires Idle(s, k) && k in s.store.requests && s.store.clock - s.store.requests[k].created < s.store.ttl
    requires s.store.requests[k].status.state !in {Complete, Failed, Malformed, Conflicted}
    ensures var st, jr, end := s.store, s.store.requests[k], WholeRequest(s, k).store;
            && k in end.requests && SameRequest(end.requests[k], jr)
            && end.requests[k].status == StatusInTheEnd(st, k, jr) && JobInTheEnd(st, k, jr, end.jobs)
  {
    var jr := s.store.requests[k];
    WholeIsBigStep(s, k);
    InputsExactly(s.store, k);
    ListedExactly(s.store, k);
    if !Inputs(s.store, k) {
      PutStatusKeeps(s, k, jr.status.(state := Malformed));
    } else if !Listed(s.store, k) {
      PutStatusKeeps(s, k, jr.status.(state := Pending));
    } else if jr.status.state == Approved {
      ApprovedInTheEnd(s, k);
    } else if jr.status.state == Started {
      StartedInTheEnd(s, k);
    }
  }

  /** And of any other that is young: nothing is changed. */
  lemma EndedStaysExactly(s: System, k: Key)
    requires Idle(s, k) && k in s.store.requests && s.store.clock - s.store.requests[k].created < s.store.ttl
    requires s.store.requests[k].status.state in {Complete, Failed, Malformed, Conflicted}
    ensures WholeRequest(s, k) == s
  {
    WholeIsBigStep(s, k);
  }
}
