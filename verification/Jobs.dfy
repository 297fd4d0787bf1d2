/** What is run: a Job carries out the very request that was approved, in the container it names. Of
    the Deployment's other containers only the init containers go with it. */
module Jobs {
  import opened Api
  import opened UserIdentity
  import opened Protocol
  import opened History
  import opened Invariant
  import opened Decisions

  /** The container with the requested command in it. */
  function Commanded(c: Container, spec: RequestSpec): Container {
    c.(command := [spec.command], args := spec.args)
  }

  predicate Wanted(containers: seq<Container>, name: string, i: nat) {
    i < |containers| && containers[i].name == name
  }

  /** How many of the first `n` containers have the wanted name. */
  function Rank(containers: seq<Container>, name: string, n: nat): nat {
    if n == 0 then 0 else Rank(containers, name, n - 1) + if Wanted(containers, name, n - 1) then 1 else 0
  }

  lemma {:induction false} RankCons(containers: seq<Container>, name: string, n: nat)
    requires containers != []
    ensures Rank(containers, name, n + 1) == (if containers[0].name == name then 1 else 0) + Rank(containers[1..], name, n)
  {
    if n > 0 {
      RankCons(containers, name, n - 1);
      assert Wanted(containers, name, n) <==> Wanted(containers[1..], name, n - 1);
    }
  }

  /** The Job's containers are all those of the wanted name, in order, each with the requested
      command: as many as there are, and each in the place that its rank among them says. */
  lemma {:induction false} TargetContainersExactly(containers: seq<Container>, spec: RequestSpec)
    ensures |TargetContainers(containers, spec)| == Rank(containers, spec.container, |containers|)
    ensures forall i: nat | Wanted(containers, spec.container, i) ::
              var at := Rank(containers, spec.container, i);
              at < |TargetContainers(containers, spec)| && TargetContainers(containers, spec)[at] == Commanded(containers[i], spec)
  {
    if containers != [] {
      var tail, r := containers[1..], TargetContainers(containers, spec);
      TargetContainersExactly(tail, spec);
      RankCons(containers, spec.container, |tail|);
      forall i: nat | Wanted(containers, spec.container, i)
        ensures var at := Rank(containers, spec.container, i); at < |r| && r[at] == Commanded(containers[i], spec)
      {
        if i > 0 {
          RankCons(containers, spec.container, i - 1);
          assert Wanted(tail, spec.container, i - 1);
        }
      }
    }
  }

  /** None of them is any other container or runs anything else. */
  lemma {:induction false} OnlyTargets(containers: seq<Container>, spec: RequestSpec)
    ensures forall c | c in TargetContainers(containers, spec) ::
              c.name == spec.container && c.command == [spec.command] && c.args == spec.args
    ensures TargetContainers(containers, spec) != [] <==> exists c | c in containers :: c.name == spec.container
  {
    if containers != [] {
      OnlyTargets(containers[1..], spec);
      assert containers == [containers[0]] + containers[1..];
    }
  }

  /** There is something to run exactly when the Deployment has a container of the wanted name. */
  lemma SomethingToRun(d: Deployment, jr: JobRequest)
    ensures JobFor(d, jr).template.containers != [] <==> exists c | c in d.template.containers :: c.name == jr.spec.container
  {
    OnlyTargets(d.template.containers, jr.spec);
  }

  /** The Job is this request's and is run once at most, and each of its containers, but the init
      containers, is the wanted one with the requested command. */
  predicate RunsRequest(job: Job, jr: JobRequest) {
    && job.owner == jr.uid
    && job.template.containers != []
    && (forall c | c in job.template.containers ::
          c.name == jr.spec.container && c.command == [jr.spec.command] && c.args == jr.spec.args)
    && job.template.restartPolicy == "Never" && job.backoffLimit == 0
    && job.template.labels == map[] && job.template.annotations == map[]
  }

  /** Init containers, and all else no controller looks at, are the Deployment's. */
  predicate CarriesOver(job: Job, d: Deployment) {
    job.template.initContainers == d.template.initContainers && job.template.rest == d.template.rest
  }

  /** All that the Job runs, in order. */
  function Ran(job: Job): seq<Container> {
    job.template.initContainers + job.template.containers
  }

  lemma JobForRunsRequest(d: Deployment, jr: JobRequest)
    requires JobFor(d, jr).template.containers != []
    ensures RunsRequest(JobFor(d, jr), jr) && CarriesOver(JobFor(d, jr), d)
  {
    OnlyTargets(d.template.containers, jr.spec);
  }

  /** The Job runs nothing but the wanted containers with the requested command exactly when the
      Deployment has no init containers. */
  lemma NothingElseExactly(d: Deployment, jr: JobRequest)
    ensures Ran(JobFor(d, jr)) == TargetContainers(d.template.containers, jr.spec) <==> d.template.initContainers == []
  {
    var init, rest := d.template.initContainers, TargetContainers(d.template.containers, jr.spec);
    if init == [] {
      assert init + rest == rest;
    } else {
      assert |init + rest| > |rest|;
    }
  }

  /** The Job is made from some Deployment for the request. */
  ghost predicate MadeFor(job: Job, jr: JobRequest) {
    exists d :: job == JobFor(d, jr) && job.template.containers != []
  }

  lemma MadeForRuns(job: Job, jr: JobRequest)
    requires MadeFor(job, jr)
    ensures RunsRequest(job, jr)
  {
    var d :| job == JobFor(d, jr) && job.template.containers != [];
    JobForRunsRequest(d, jr);
  }

  /** Whatever Job a reconcile has prepared is made for the request it holds. */
  ghost predicate Prepared(task: RequestTask) {
    task.FindingReviews? || task.LookingUpJob? || task.CreatingJob? ==> MadeFor(task.job, task.jr)
  }

  ghost predicate AllPrepared(s: System) {
    forall k | k in s.requestTasks :: Prepared(s.requestTasks[k])
  }

  lemma NextIsPrepared(s: System, k: Key, task: RequestTask, outcome: Outcome)
    requires Prepared(task)
    ensures var next := RequestNext(s, k, task, outcome); next.Some? ==> Prepared(next.value)
  {
    if task.FindingDeployment? {
      var d := DeploymentKey(k, task.jr);
      if d in s.store.deployments && JobFor(s.store.deployments[d], task.jr).template.containers != [] {
        assert MadeFor(JobFor(s.store.deployments[d], task.jr), task.jr);
      }
    }
  }

  lemma StepKeepsPrepared(s: System, a: Action)
    requires AllPrepared(s)
    ensures AllPrepared(Step(s, a))
  {
    if a.StepRequest? && a.key in s.requestTasks {
      NextIsPrepared(s, a.key, s.requestTasks[a.key], a.outcome);
      RequestEffectLocal(s, a.key, s.requestTasks[a.key], a.outcome);
    } else if a.StepReview? && a.key in s.reviewTasks {
      ReviewEffectLocal(s, a.key, s.reviewTasks[a.key], a.outcome);
    }
  }

  lemma {:induction false} RunKeepsPrepared(s: System, actions: seq<Action>)
    requires AllPrepared(s)
    ensures AllPrepared(Run(s, actions))
    decreases |actions|
  {
    if actions != [] {
      RunKeepsPrepared(s, actions[..|actions| - 1]);
      StepKeepsPrepared(Run(s, actions[..|actions| - 1]), actions[|actions| - 1]);
    }
  }

  /** A step that creates a Job is one of the request's own reconcile, holding what it creates. */
  lemma CreationHolds(s: System, a: Action)
    requires Step(s, a).log != s.log && Last(Step(s, a).log).JobCreated?
    ensures var e := Last(Step(s, a).log);
            && e.key in s.requestTasks && s.requestTasks[e.key].CreatingJob?
            && e.request == s.requestTasks[e.key].jr
            && Stored(Step(s, a).store.jobs, e.key) == Some(s.requestTasks[e.key].job)
  {
  }

  lemma EffectOnJobs(s: System, x: Key, task: RequestTask, outcome: Outcome, k: Key)
    requires Stored(RequestEffect(s, x, task, outcome).store.jobs, k) != Stored(s.store.jobs, k)
    ensures x == k && task.CreatingJob? && RequestEffect(s, x, task, outcome).log == s.log + [JobCreated(k, task.jr)]
  {
  }

  lemma ReviewSparesJobs(s: System, rk: Key, task: ReviewTask, outcome: Outcome)
    ensures ReviewEffect(s, rk, task, outcome).store.jobs == s.store.jobs
  {
  }

  lemma WorldSparesJobs(s: System, a: Action)
    requires !a.SetJob? && !a.StepRequest? && !a.StepReview?
    ensures Step(s, a).store.jobs == s.store.jobs
  {
  }

  /** No Job comes into being or changes but by the cluster or by a creation that is in the log. */
  lemma NewJobIsLogged(s: System, a: Action, k: Key)
    requires !a.SetJob? && Stored(Step(s, a).store.jobs, k) != Stored(s.store.jobs, k)
    ensures exists jr :: Step(s, a).log == s.log + [JobCreated(k, jr)]
  {
    if a.StepRequest? && a.key in s.requestTasks {
      EffectOnJobs(s, a.key, s.requestTasks[a.key], a.outcome, k);
    } else if a.StepReview? && a.key in s.reviewTasks {
      ReviewSparesJobs(s, a.key, s.reviewTasks[a.key], a.outcome);
    } else if !a.StepRequest? && !a.StepReview? {
      WorldSparesJobs(s, a);
    }
  }

  /* ---------- the request that was approved is the one that is run ---------- */

  /** The approval behind the last event, which creates a Job, is of that very request. */
  lemma ApprovedAsStored(log: seq<Event>, e: Event) returns (j: nat)
    requires Atomic(log + [e]) && e.JobCreated?
    ensures j < |log| && Approval(log, j, e.key, e.request.uid) && SameRequest(e.request, log[j].before)
  {
    var all := log + [e];
    Appended(log, e);
    j := JobNeedsApproval(all, |log|);
    assert all[..|log|] == log && all[..j] == log[..j] && all[j] == log[j];
    SameIncarnation(log, j, |log|);
    assert log[..|log|] == log;
  }

  lemma AtomicGrowth(log: seq<Event>, now: seq<Event>)
    requires Atomic(now) && now != log && (now == log || (now != [] && Init(now) == log))
    ensures now != [] && now == log + [Last(now)]
  {
  }

  /** What a step from the start of a run adds to the log. */
  lemma RunStepIsAtomic(s: System, actions: seq<Action>, a: Action)
    requires Initial(s)
    requires Step(Run(s, actions), a).log != Run(s, actions).log
    ensures var log, now := Run(s, actions).log, Step(Run(s, actions), a).log;
            now != [] && now == log + [Last(now)] && Atomic(now)
  {
    var before, now := Run(s, actions), Step(Run(s, actions), a);
    RunIsAtomic(s, actions);
    StepKeepsInv(before, a);
    LogGrowsByOne(before, a);
    AtomicGrowth(before.log, now.log);
  }

  lemma CreatedJobRuns(s: System, a: Action)
    requires AllPrepared(s) && Step(s, a).log != s.log && Last(Step(s, a).log).JobCreated?
    ensures var now := Step(s, a);
            var k, jr := Last(now.log).key, Last(now.log).request;
            k in now.store.jobs && RunsRequest(now.store.jobs[k], jr) && MadeFor(now.store.jobs[k], jr)
  {
    CreationHolds(s, a);
    var task := s.requestTasks[Last(Step(s, a).log).key];
    assert Prepared(task);
    MadeForRuns(task.job, task.jr);
  }

  /** When a Job is created, somebody else than the requester approved that very request, spec and
      all, and the Job runs it. */
  lemma OnlyApprovedRuns(s: System, actions: seq<Action>, a: Action)
    requires Initial(s)
    requires var before, now := Run(s, actions), Step(Run(s, actions), a); now.log != before.log && Last(now.log).JobCreated?
    ensures var log := Run(s, actions).log;
            var now := Step(Run(s, actions), a);
            var k, jr := Last(now.log).key, Last(now.log).request;
            && k in now.store.jobs && RunsRequest(now.store.jobs[k], jr) && MadeFor(now.store.jobs[k], jr)
            && exists j: nat | j < |log| :: Approval(log, j, k, jr.uid) && SameRequest(jr, log[j].before)
  {
    RunKeepsPrepared(s, actions);
    CreatedJobRuns(Run(s, actions), a);
    RunStepIsAtomic(s, actions, a);
    var j := ApprovedAsStored(Run(s, actions).log, Last(Step(Run(s, actions), a).log));
  }

  /* ---------- where the Job comes from ---------- */

  /** The action at `p` finds, for a reconcile that holds `jr`, the Deployment stored under the name in its
      spec, and `job` is made from that. */
  ghost predicate FoundAt(s: System, actions: seq<Action>, p: nat, k: Key, jr: JobRequest, job: Job)
    requires p < |actions|
  {
    var t, d := Run(s, actions[..p]), Key(k.namespace, jr.spec.deployment);
    && actions[p] == StepRequest(k, Ok) && Stored(t.requestTasks, k) == Some(FindingDeployment(jr))
    && d in t.store.deployments && RunsRequest(job, jr) && CarriesOver(job, t.store.deployments[d])
    && job.template.containers == TargetContainers(t.store.deployments[d].template.containers, jr.spec)
  }

  /** A reconcile on its way from the Deployment to the Job, and what it holds. */
  predicate OnTheWay(task: Option<RequestTask>, jr: JobRequest, job: Job) {
    task == Some(FindingReviews(jr, job)) || task == Some(LookingUpJob(jr, job)) || task == Some(CreatingJob(jr, job))
  }

  /** After action `p` the reconcile of `k` was on its way with these all the time. */
  ghost predicate SameReconcile(s: System, actions: seq<Action>, p: nat, k: Key, jr: JobRequest, job: Job) {
    forall q: nat | p < q <= |actions| :: OnTheWay(Stored(Run(s, actions[..q]).requestTasks, k), jr, job)
  }

  ghost predicate ComesFrom(s: System, actions: seq<Action>, k: Key, jr: JobRequest, job: Job) {
    exists p: nat | p < |actions| :: FoundAt(s, actions, p, k, jr, job) && SameReconcile(s, actions, p, k, jr, job)
  }

  lemma StillSame(s: System, actions: seq<Action>, p: nat, k: Key, jr: JobRequest, job: Job)
    requires actions != [] && p < |actions| - 1 && SameReconcile(s, actions[..|actions| - 1], p, k, jr, job)
    requires OnTheWay(Stored(Run(s, actions).requestTasks, k), jr, job)
    ensures SameReconcile(s, actions, p, k, jr, job)
  {
    var prefix := actions[..|actions| - 1];
    forall q: nat | p < q <= |actions| ensures OnTheWay(Stored(Run(s, actions[..q]).requestTasks, k), jr, job) {
      if q == |actions| {
        assert actions[..q] == actions;
      } else {
        assert actions[..q] == prefix[..q];
      }
    }
  }

  lemma StillComesFrom(s: System, actions: seq<Action>, k: Key, jr: JobRequest, job: Job)
    requires actions != [] && ComesFrom(s, actions[..|actions| - 1], k, jr, job)
    requires OnTheWay(Stored(Run(s, actions).requestTasks, k), jr, job)
    ensures ComesFrom(s, actions, k, jr, job)
  {
    var prefix := actions[..|actions| - 1];
    var p: nat :| p < |prefix| && FoundAt(s, prefix, p, k, jr, job) && SameReconcile(s, prefix, p, k, jr, job);
    assert prefix[..p] == actions[..p];
    StillSame(s, actions, p, k, jr, job);
    assert FoundAt(s, actions, p, k, jr, job);
  }

  lemma NowComesFrom(s: System, actions: seq<Action>, k: Key, jr: JobRequest, job: Job)
    requires actions != [] && FoundAt(s, actions, |actions| - 1, k, jr, job)
    requires OnTheWay(Stored(Run(s, actions).requestTasks, k), jr, job)
    ensures ComesFrom(s, actions, k, jr, job)
  {
    var p := |actions| - 1;
    forall q: nat | p < q <= |actions| ensures OnTheWay(Stored(Run(s, actions[..q]).requestTasks, k), jr, job) {
      assert actions[..q] == actions;
    }
    assert FoundAt(s, actions, p, k, jr, job) && SameReconcile(s, actions, p, k, jr, job);
  }

  /** A call goes on the way with what was held, or enters it with a Job made from the Deployment found. */
  lemma OwnCallOnTheWay(t: System, k: Key, task: RequestTask, outcome: Outcome, jr: JobRequest, job: Job)
    requires OnTheWay(RequestNext(t, k, task, outcome), jr, job)
    ensures var d := Key(k.namespace, jr.spec.deployment);
            || OnTheWay(Some(task), jr, job)
            || (task == FindingDeployment(jr) && outcome == Ok && d in t.store.deployments
                && job == JobFor(t.store.deployments[d], jr) && job.template.containers != [])
  {
  }

  lemma OthersKeepWay(t: System, a: Action, k: Key, jr: JobRequest, job: Job)
    requires !(a.StepRequest? && a.key == k) && OnTheWay(Stored(Step(t, a).requestTasks, k), jr, job)
    ensures OnTheWay(Stored(t.requestTasks, k), jr, job)
  {
    if a.StepRequest? && a.key in t.requestTasks {
      RequestEffectLocal(t, a.key, t.requestTasks[a.key], a.outcome);
    } else if a.StepReview? && a.key in t.reviewTasks {
      ReviewEffectLocal(t, a.key, t.reviewTasks[a.key], a.outcome);
    }
  }

  lemma OwnStepIs(t: System, k: Key, outcome: Outcome)
    requires k in t.requestTasks
    ensures Stored(Step(t, StepRequest(k, outcome)).requestTasks, k) == RequestNext(t, k, t.requestTasks[k], outcome)
  {
    RequestEffectLocal(t, k, t.requestTasks[k], outcome);
  }

  /** In every run, what a reconcile on its way holds comes from the Deployment it found. */
  lemma {:induction false} WayComesFrom(s: System, actions: seq<Action>, k: Key, jr: JobRequest, job: Job)
    requires Initial(s) && OnTheWay(Stored(Run(s, actions).requestTasks, k), jr, job)
    ensures ComesFrom(s, actions, k, jr, job)
    decreases |actions|
  {
    var prefix, a := actions[..|actions| - 1], actions[|actions| - 1];
    var t := Run(s, prefix);
    if a.StepRequest? && a.key == k && k in t.requestTasks {
      OwnStepIs(t, k, a.outcome);
      OwnCallOnTheWay(t, k, t.requestTasks[k], a.outcome, jr, job);
      if OnTheWay(Some(t.requestTasks[k]), jr, job) {
        WayComesFrom(s, prefix, k, jr, job);
        StillComesFrom(s, actions, k, jr, job);
      } else {
        JobForRunsRequest(t.store.deployments[Key(k.namespace, jr.spec.deployment)], jr);
        assert FoundAt(s, actions, |actions| - 1, k, jr, job);
        NowComesFrom(s, actions, k, jr, job);
      }
    } else {
      if !(a.StepRequest? && a.key == k) {
        OthersKeepWay(t, a, k, jr, job);
      }
      WayComesFrom(s, prefix, k, jr, job);
      StillComesFrom(s, actions, k, jr, job);
    }
  }

  /** The step that creates it holds it. */
  lemma CreationIs(t: System, a: Action, k: Key, jr: JobRequest, job: Job)
    requires Step(t, a).log == t.log + [JobCreated(k, jr)] && Stored(Step(t, a).store.jobs, k) == Some(job)
    ensures Stored(t.requestTasks, k) == Some(CreatingJob(jr, job))
  {
    assert Last(Step(t, a).log) == JobCreated(k, jr);
    CreationHolds(t, a);
  }

  /** When a Job is created it is made from the Deployment that was stored under the name in the request's
      spec when the same reconcile listed it. */
  lemma JobComesFrom(s: System, actions: seq<Action>, a: Action, k: Key, jr: JobRequest, job: Job)
    requires Initial(s)
    requires Step(Run(s, actions), a).log == Run(s, actions).log + [JobCreated(k, jr)]
    requires Stored(Step(Run(s, actions), a).store.jobs, k) == Some(job)
    ensures ComesFrom(s, actions, k, jr, job)
  {
    CreationIs(Run(s, actions), a, k, jr, job);
    WayComesFrom(s, actions, k, jr, job);
  }

  /* ---------- Started says that there is a Job ---------- */

  /** An update to Started is about to be sent only from the request that a Job was created for. */
  predicate ShowsJob(log: seq<Event>, k: Key, task: RequestTask) {
    task.Writing? && task.status.state == Started ==> JobCreated(k, task.jr) in log
  }

  /** Every write of Started was made from the very request that a Job was created for before. */
  predicate StartedShown(log: seq<Event>) {
    forall i | 0 <= i < |log| && log[i].RequestWritten? && log[i].after.status.state == Started ::
      JobCreated(log[i].key, log[i].before) in log[..i]
  }

  predicate AllShown(s: System) {
    StartedShown(s.log) && forall k | k in s.requestTasks :: ShowsJob(s.log, k, s.requestTasks[k])
  }

  lemma ShownAppended(log: seq<Event>, e: Event)
    requires StartedShown(log)
    requires e.RequestWritten? && e.after.status.state == Started ==> JobCreated(e.key, e.before) in log
    ensures StartedShown(log + [e])
  {
    var now := log + [e];
    forall i | 0 <= i < |now| && now[i].RequestWritten? && now[i].after.status.state == Started
      ensures JobCreated(now[i].key, now[i].before) in now[..i]
    {
      assert now[..i] == if i < |log| then log[..i] else log;
    }
  }

  /** What a call adds to the log, as far as it is a write of Started. */
  lemma EffectShown(t: System, k: Key, task: RequestTask, outcome: Outcome)
    requires Recorded(t) && Holds(Stored(t.store.requests, k), k, task) && StartedShown(t.log) && ShowsJob(t.log, k, task)
    ensures var t' := RequestEffect(t, k, task, outcome); StartedShown(t'.log) && t.log <= t'.log
  {
    if outcome != Fails {
      match task
      case Deleting(_) =>
        if k in t.store.requests {
          ShownAppended(t.log, RequestDeleted(k, t.store.requests[k]));
        }
      case CreatingJob(jr, _) =>
        ShownAppended(t.log, JobCreated(k, jr));
      case Writing(jr, status, rest) =>
        if Fresh(t.store, k, jr) && status != jr.status {
          UpdateIsTransition(t, k, jr, status, rest);
          PutStatusAdds(t, k, status, None);
          ShownAppended(t.log, Last(PutStatus(t, k, status, None).log));
        } else if Fresh(t.store, k, jr) {
          UpdateIsTransition(t, k, jr, status, rest);
        }
      case _ =>
    }
  }

  lemma NextShown(t: System, k: Key, task: RequestTask, outcome: Outcome)
    requires Holds(Stored(t.store.requests, k), k, task)
    ensures var next := RequestNext(t, k, task, outcome);
            next.Some? ==> ShowsJob(RequestEffect(t, k, task, outcome).log, k, next.value)
  {
    if task.Rereading? {
      FinalStatesAreFinal(task.conditions);
    }
  }

  lemma OwnStepShown(t: System, k: Key, outcome: Outcome)
    requires Inv(t) && AllShown(t) && k in t.requestTasks
    ensures AllShown(Step(t, StepRequest(k, outcome)))
  {
    var task := t.requestTasks[k];
    assert Holds(Stored(t.store.requests, k), k, task);
    EffectShown(t, k, task, outcome);
    NextShown(t, k, task, outcome);
    RequestEffectLocal(t, k, task, outcome);
    ShownLater(t, RequestEffect(t, k, task, outcome).log);
  }

  /** What is in flight stays in order as the log grows. */
  lemma ShownLater(t: System, log: seq<Event>)
    requires AllShown(t) && t.log <= log
    ensures forall x | x in t.requestTasks :: ShowsJob(log, x, t.requestTasks[x])
  {
  }

  lemma ReviewStepShown(t: System, rk: Key, outcome: Outcome)
    requires Inv(t) && AllShown(t) && rk in t.reviewTasks
    ensures AllShown(Step(t, StepReview(rk, outcome)))
  {
    var task := t.reviewTasks[rk];
    var e := ReviewEffect(t, rk, task, outcome);
    assert HoldsReview(t.store, rk, task);
    ReviewCallIs(t, rk, outcome);
    ReviewLogGrows(t, rk, task, outcome);
    if e.log != t.log {
      ShownAppended(t.log, Last(e.log));
    }
  }

  lemma ReviewLogGrows(t: System, rk: Key, task: ReviewTask, outcome: Outcome)
    ensures var log := ReviewEffect(t, rk, task, outcome).log;
            log == t.log
            || (log != [] && log == t.log + [Last(log)] && (Last(log).RequestWritten? ==> Last(log).after.status.state != Started))
  {
  }

  lemma OtherStepShown(t: System, a: Action)
    requires AllShown(t) && !a.StepRequest? && !a.StepReview?
    ensures AllShown(Step(t, a))
  {
    var t' := Step(t, a);
    LogGrowsByOne(t, a);
    if t'.log != t.log {
      assert t'.log == t.log + [Last(t'.log)];
      ShownAppended(t.log, Last(t'.log));
    }
  }

  lemma {:induction false} RunShown(s: System, actions: seq<Action>)
    requires Initial(s)
    ensures AllShown(Run(s, actions))
    decreases |actions|
  {
    if actions != [] {
      var prefix, a := actions[..|actions| - 1], actions[|actions| - 1];
      RunShown(s, prefix);
      RunIsAtomic(s, prefix);
      if a.StepRequest? && a.key in Run(s, prefix).requestTasks {
        OwnStepShown(Run(s, prefix), a.key, a.outcome);
      } else if a.StepReview? && a.key in Run(s, prefix).reviewTasks {
        ReviewStepShown(Run(s, prefix), a.key, a.outcome);
      } else if !a.StepRequest? && !a.StepReview? {
        OtherStepShown(Run(s, prefix), a);
      }
    }
  }

  lemma StartedFromApproved(log: seq<Event>, i: nat)
    requires Atomic(log) && i < |log| && log[i].RequestWritten? && log[i].after.status.state == Started
    ensures log[i].before.status.state == Approved
  {
    AllowedAt(log, i);
  }

  /** In every run a request is written Started only after a Job was created for it as it then was: for
      the same Approved request, at the same version, and so since its approval. */
  lemma StartedAfterJob(s: System, actions: seq<Action>, i: nat)
    requires Initial(s) && i < |Run(s, actions).log|
    requires Run(s, actions).log[i].RequestWritten? && Run(s, actions).log[i].after.status.state == Started
    ensures var log := Run(s, actions).log;
            && log[i].before.status.state == Approved
            && exists j | 0 <= j < i :: log[j] == JobCreated(log[i].key, log[i].before)
  {
    RunShown(s, actions);
    RunIsAtomic(s, actions);
    var log := Run(s, actions).log;
    StartedFromApproved(log, i);
    var j :| 0 <= j < i && log[..i][j] == JobCreated(log[i].key, log[i].before);
    assert log[j] == log[..i][j];
  }
}
