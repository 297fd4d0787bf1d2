/** The two controllers as they are written: objects held in memory and changed in place, one call
    to the cluster after another. Each reconcile is proved to be the protocol's reconcile on the
    schedule it meets, so what holds of every run of the protocol holds of these methods. */
module Controllers {
  import opened Api
  import opened UserIdentity
  import opened Protocol
  import opened Invariant
  import opened Sequential
  import opened Schedule
  import opened Endings
  import opened ReviewEndings

  /** A JobRequest held in memory. */
  class RequestObject {
    var value: JobRequest

    constructor (value: JobRequest)
      ensures this.value == value
    {
      this.value := value;
    }
  }

  /** A JobRequestReview held in memory. */
  class ReviewObject {
    var value: Review

    constructor (value: Review)
      ensures this.value == value
    {
      this.value := value;
    }
  }

  /** The reconcile is about to write `states`, one after another, to the request it holds. */
  predicate AboutToWrite(task: Option<RequestTask>, held: JobRequest, states: seq<RequestState>) {
    if states == [] then task.None?
    else
      && task.Some? && task.value.Writing?
      && task.value.jr.(status := held.status) == held
      && task.value.status == held.status.(state := states[0])
      && task.value.rest == states[1..]
  }

  /** One turn: the others act, the reconcile's own call follows, and it is still on course. */
  lemma TakeTurn(s: System, script: seq<Turn>, k: Key)
    requires Foreign(script, k) && k in s.requestTasks
    ensures Foreign(Tail(script), k)
    ensures Stored(Met(s, script).requestTasks, k) == Some(s.requestTasks[k])
    ensures Met(s, script).store.ttl == s.store.ttl
    ensures var s' := Step(Met(s, script), StepRequest(k, Head(script).outcome));
            s'.store.ttl == s.store.ttl && GoOn(s', Tail(script), k) == GoOn(s, script, k)
  {
    MeetingKeepsTask(s, script, k);
    StepTime(Met(s, script), StepRequest(k, Head(script).outcome));
  }

  lemma TakeReviewTurn(s: System, script: seq<Turn>, rk: Key)
    requires ForeignToReview(script, rk) && rk in s.reviewTasks
    ensures ForeignToReview(Tail(script), rk)
    ensures Stored(Met(s, script).reviewTasks, rk) == Some(s.reviewTasks[rk])
    ensures Met(s, script).store.ttl == s.store.ttl
    ensures var s' := Step(Met(s, script), StepReview(rk, Head(script).outcome));
            s'.store.ttl == s.store.ttl && GoOnReview(s', Tail(script), rk) == GoOnReview(s, script, rk)
  {
    MeetingKeepsReviewTask(s, script, rk);
    StepTime(Met(s, script), StepReview(rk, Head(script).outcome));
  }

  /** The API server and the review cache as a reconcile meets them. `script` is what the others
      do before each call and how the call ends. */
  class Cluster {
    var sys: System
    var script: seq<Turn>
    var cache: map<Key, Review>

    ghost predicate Alone(k: Key)
      reads this
    {
      Foreign(script, k)
    }

    ghost predicate AloneOnReview(rk: Key)
      reads this
    {
      ForeignToReview(script, rk)
    }

    /** What the reconcile of `k` holds by the protocol. */
    function Task(k: Key): Option<RequestTask>
      reads this
    {
      Stored(sys.requestTasks, k)
    }

    function ReviewTaskOf(rk: Key): Option<ReviewTask>
      reads this
    {
      Stored(sys.reviewTasks, rk)
    }

    /** Going on by the protocol leads to the same end as before. */
    twostate predicate OnCourse(k: Key)
      requires old(Alone(k))
      reads this
    {
      && Alone(k) && sys.store.ttl == old(sys.store.ttl)
      && GoOn(sys, script, k) == old(GoOn(sys, script, k))
    }

    twostate predicate OnReviewCourse(rk: Key)
      requires old(AloneOnReview(rk))
      reads this
    {
      && AloneOnReview(rk) && sys.store.ttl == old(sys.store.ttl)
      && GoOnReview(sys, script, rk) == old(GoOnReview(sys, script, rk))
    }

    /** What a whole reconcile has made of what its calls met. */
    twostate predicate Reconciled(k: Key)
      reads this
    {
      Inv(old(sys)) ==> ReconcileEnds(old(sys), old(script), k, sys)
    }

    /** The same of the Approved branch, with a Job made from Deployment `d`, and of the Started branch. */
    twostate predicate ApprovedDone(k: Key, jr: JobRequest, d: Deployment)
      reads this
    {
      Inv(old(sys)) ==> ApprovedEnds(old(sys), old(script), k, jr, d, sys)
    }

    twostate predicate StartedDone(k: Key, jr: JobRequest)
      reads this
    {
      Inv(old(sys)) ==> StartedEnds(old(sys), old(script), k, jr, sys)
    }

    twostate predicate ReviewReconciled(rk: Key)
      reads this
    {
      Inv(old(sys)) ==> ReviewEnds(old(sys), old(script), rk, Stored(old(cache), rk), sys)
    }

    constructor (sys: System, script: seq<Turn>, cache: map<Key, Review>)
      ensures this.sys == sys && this.script == script && this.cache == cache
    {
      this.sys, this.script, this.cache := sys, script, cache;
    }

    /** The others take their turn. */
    method Await() returns (outcome: Outcome)
      modifies this`sys, this`script
      ensures sys == Met(old(sys), old(script)) && script == Tail(old(script)) && outcome == Head(old(script)).outcome
    {
      var turn := Head(script);
      for i := 0 to |turn.others|
        invariant script == old(script)
        invariant sys == Run(old(sys), turn.others[..i])
      {
        assert turn.others[..i + 1][..i] == turn.others[..i];
        sys := Step(sys, turn.others[i]);
      }
      assert turn.others[..|turn.others|] == turn.others;
      script := Tail(script);
      outcome := turn.outcome;
    }

    /* ---------- calls of the JobRequest controller ---------- */

    /** Get from the API server, first and again. */
    method GetRequest(k: Key) returns (reply: Reply<JobRequest>)
      requires Alone(k)
      requires Task(k).Some? ==> Task(k).value.Rereading?
      modifies this`sys, this`script
      ensures Alone(k) && sys.store.ttl == old(sys.store.ttl)
      ensures old(Task(k)).None? ==>
                && GoOn(sys, script, k) == old(Scheduled(sys, script, k))
                && Task(k) == if reply.Found? then Some(Fetched(reply.value)) else None
      ensures old(Task(k)).Some? ==> OnCourse(k) && Task(k) == AfterReread(reply, old(Task(k)).value.conditions)
    {
      MeetingKeepsTask(sys, script, k);
      if k in sys.requestTasks {
        TakeTurn(sys, script, k);
        var outcome := Await();
        reply := Reading(sys.store.requests, k, outcome);
        sys := Step(sys, StepRequest(k, outcome));
      } else {
        var outcome := Await();
        reply := Reading(sys.store.requests, k, outcome);
        sys := Step(sys, StartRequest(k, outcome));
      }
    }

    /** The time since `created`. */
    method Since(k: Key, created: nat) returns (age: int)
      requires Alone(k) && Task(k).Some? && Task(k).value.Fetched? && Task(k).value.jr.created == created
      modifies this`sys, this`script
      ensures OnCourse(k) && Task(k) == AfterAge(old(Task(k)).value.jr, age, sys.store.ttl)
    {
      TakeTurn(sys, script, k);
      var outcome := Await();
      age := sys.store.clock - created;
      sys := Step(sys, StepRequest(k, outcome));
    }

    method DeleteRequest(k: Key)
      requires Alone(k) && Task(k).Some? && Task(k).value.Deleting?
      modifies this`sys, this`script
      ensures OnCourse(k) && Task(k).None?
    {
      TakeTurn(sys, script, k);
      var outcome := Await();
      sys := Step(sys, StepRequest(k, outcome));
    }

    method ListDeployments(k: Key, name: string) returns (found: Option<seq<Deployment>>)
      requires Alone(k) && Task(k).Some? && Task(k).value.FindingDeployment?
      requires Key(k.namespace, name) == DeploymentKey(k, Task(k).value.jr)
      modifies this`sys, this`script
      ensures OnCourse(k) && Task(k) == AfterDeployments(old(Task(k)).value.jr, found)
      ensures var deployments, d := old(Met(sys, script)).store.deployments, Key(k.namespace, name);
              found == if old(Head(script)).outcome != Ok then None
                       else if d in deployments then Some([deployments[d]]) else Some([])
    {
      TakeTurn(sys, script, k);
      var outcome := Await();
      found := Listing(Named(sys.store.deployments, Key(k.namespace, name)), outcome);
      sys := Step(sys, StepRequest(k, outcome));
    }

    method ListReviews(k: Key) returns (found: Option<set<Key>>)
      requires Alone(k) && Task(k).Some? && Task(k).value.FindingReviews?
      modifies this`sys, this`script
      ensures OnCourse(k)
      ensures found == Listing(ReviewsOf(old(Met(sys, script)).store, k), old(Head(script)).outcome)
      ensures var t := old(Task(k)).value;
              Task(k) == AfterState(t.jr, t.job, Protocol.CalculateState(t.jr, found))
    {
      TakeTurn(sys, script, k);
      var outcome := Await();
      found := Listing(ReviewsOf(sys.store, k), outcome);
      sys := Step(sys, StepRequest(k, outcome));
    }

    method GetJob(k: Key) returns (reply: Reply<Job>)
      requires Alone(k) && Task(k).Some? && (Task(k).value.LookingUpJob? || Task(k).value.CheckingJob?)
      modifies this`sys, this`script
      ensures OnCourse(k)
      ensures var t := old(Task(k)).value;
              Task(k) == if t.LookingUpJob? then AfterLookup(t.jr, t.job, reply) else Some(AfterCheck(t.jr, reply))
    {
      TakeTurn(sys, script, k);
      var outcome := Await();
      reply := Reading(sys.store.jobs, k, outcome);
      sys := Step(sys, StepRequest(k, outcome));
    }

    method CreateJob(k: Key, job: Job) returns (created: bool)
      requires Alone(k) && Task(k).Some? && Task(k).value.CreatingJob? && Task(k).value.job == job
      modifies this`sys, this`script
      ensures OnCourse(k) && Task(k) == Some(AfterCreate(k, old(Task(k)).value.jr, created))
    {
      TakeTurn(sys, script, k);
      var outcome := Await();
      created := outcome == Ok && k !in sys.store.jobs;
      sys := Step(sys, StepRequest(k, outcome));
    }

    /** A status update of the JobRequest controller; on success the object in memory becomes the
        stored one. */
    method UpdateStatus(k: Key, held: RequestObject, ghost rest: seq<RequestState>) returns (ok: bool)
      requires Alone(k) && AboutToWrite(Task(k), held.value, [held.value.status.state] + rest)
      modifies this`sys, this`script, held
      ensures OnCourse(k) && AboutToWrite(Task(k), held.value, rest)
      ensures held.value.status == old(held.value.status)
      ensures ok <==> old(Head(script)).outcome == Ok && Fresh(old(Met(sys, script)).store, k, old(held.value))
      ensures ok ==> Stored(sys.store.requests, k) == Some(held.value)
      ensures !ok ==> held.value == old(held.value)
    {
      TakeTurn(sys, script, k);
      assert ([held.value.status.state] + rest)[1..] == rest;
      var outcome := Await();
      ok := outcome == Ok && Fresh(sys.store, k, held.value);
      sys := Step(sys, StepRequest(k, outcome));
      if ok {
        held.value := sys.store.requests[k];
      }
    }

    /* ---------- calls of the JobRequestReview controller ---------- */

    /** Get from the cache, which may serve any form the review ever had. */
    method GetReview(rk: Key) returns (found: Option<Review>)
      requires AloneOnReview(rk) && ReviewTaskOf(rk).None?
      modifies this`sys, this`script
      ensures AloneOnReview(rk) && sys.store.ttl == old(sys.store.ttl)
      ensures GoOnReview(sys, script, rk) == old(ScheduledReview(sys, script, rk, Stored(cache, rk)))
      ensures ReviewTaskOf(rk) == if found.Some? then Some(FetchedReview(found.value)) else None
    {
      MeetingKeepsReviewTask(sys, script, rk);
      var outcome := Await();
      found := if rk in cache && cache[rk] in SeenOf(sys.store.seen, rk) then Some(cache[rk]) else None;
      sys := Step(sys, StartReview(rk, Stored(cache, rk)));
    }

    method SinceReview(rk: Key, created: nat) returns (age: int)
      requires AloneOnReview(rk) && ReviewTaskOf(rk).Some? && ReviewTaskOf(rk).value.FetchedReview?
      requires ReviewTaskOf(rk).value.rv.created == created
      modifies this`sys, this`script
      ensures OnReviewCourse(rk) && ReviewTaskOf(rk) == AfterReviewAge(old(ReviewTaskOf(rk)).value.rv, age, sys.store.ttl)
    {
      TakeReviewTurn(sys, script, rk);
      var outcome := Await();
      age := sys.store.clock - created;
      sys := Step(sys, StepReview(rk, outcome));
    }

    method DeleteReview(rk: Key)
      requires AloneOnReview(rk) && ReviewTaskOf(rk).Some? && ReviewTaskOf(rk).value.DeletingReview?
      modifies this`sys, this`script
      ensures OnReviewCourse(rk) && ReviewTaskOf(rk).None?
    {
      TakeReviewTurn(sys, script, rk);
      var outcome := Await();
      sys := Step(sys, StepReview(rk, outcome));
    }

    method ListRequests(rk: Key, name: string) returns (found: Option<seq<JobRequest>>)
      requires AloneOnReview(rk) && ReviewTaskOf(rk).Some? && ReviewTaskOf(rk).value.FindingRequest?
      requires Key(rk.namespace, name) == Target(rk, ReviewTaskOf(rk).value.rv)
      modifies this`sys, this`script
      ensures OnReviewCourse(rk) && ReviewTaskOf(rk) == AfterRequests(rk, old(ReviewTaskOf(rk)).value.rv, found)
      ensures var requests, k := old(Met(sys, script)).store.requests, Key(rk.namespace, name);
              found == if old(Head(script)).outcome != Ok then None
                       else if k in requests then Some([requests[k]]) else Some([])
    {
      TakeReviewTurn(sys, script, rk);
      var outcome := Await();
      found := Listing(Named(sys.store.requests, Key(rk.namespace, name)), outcome);
      sys := Step(sys, StepReview(rk, outcome));
    }

    /** The decision: a status update of the request from the copy in memory. */
    method UpdateDecidedStatus(rk: Key, held: RequestObject) returns (ok: bool)
      requires AloneOnReview(rk) && ReviewTaskOf(rk).Some? && ReviewTaskOf(rk).value.Committing?
      requires var t := ReviewTaskOf(rk).value; held.value == t.jr.(status := DecidedStatus(rk, t.rv, t.jr))
      modifies this`sys, this`script, held
      ensures OnReviewCourse(rk)
      ensures var rv := old(ReviewTaskOf(rk)).value.rv;
              ReviewTaskOf(rk) == Some(WritingReview(rv, rv.decision.AsReviewState()))
      ensures held.value.status == old(held.value.status)
      ensures ok ==> Stored(sys.store.requests, Target(rk, old(ReviewTaskOf(rk)).value.rv)) == Some(held.value)
      ensures !ok ==> held.value == old(held.value)
    {
      TakeReviewTurn(sys, script, rk);
      var k := Target(rk, sys.reviewTasks[rk].rv);
      var outcome := Await();
      ok := outcome == Ok && Fresh(sys.store, k, held.value);
      sys := Step(sys, StepReview(rk, outcome));
      if ok {
        held.value := sys.store.requests[k];
      }
    }

    method UpdateReviewStatus(rk: Key, held: ReviewObject) returns (ok: bool)
      requires AloneOnReview(rk) && ReviewTaskOf(rk).Some? && ReviewTaskOf(rk).value.WritingReview?
      requires var t := ReviewTaskOf(rk).value; held.value == t.rv.(state := t.to)
      modifies this`sys, this`script, held
      ensures OnReviewCourse(rk) && ReviewTaskOf(rk).None?
      ensures held.value.state == old(held.value.state)
      ensures ok ==> Stored(sys.store.reviews, rk) == Some(held.value)
      ensures !ok ==> held.value == old(held.value)
    {
      TakeReviewTurn(sys, script, rk);
      var outcome := Await();
      ok := outcome == Ok && FreshReview(sys.store, rk, held.value);
      sys := Step(sys, StepReview(rk, outcome));
      if ok {
        held.value := sys.store.reviews[rk];
      }
    }
  }

  /* ---------- the JobRequest controller ---------- */

  class JobRequestReconciler {
    const cluster: Cluster
    const resourceTtl: int

    constructor (cluster: Cluster, resourceTtl: int)
      ensures this.cluster == cluster && this.resourceTtl == resourceTtl
    {
      this.cluster, this.resourceTtl := cluster, resourceTtl;
    }

    /** A whole reconcile, whatever the others do between its calls and whichever calls fail. */
    method Reconcile(k: Key)
      requires cluster.Alone(k) && cluster.Task(k).None? && resourceTtl == cluster.sys.store.ttl
      modifies cluster`sys, cluster`script
      ensures cluster.sys == old(Scheduled(cluster.sys, cluster.script, k))
      ensures cluster.Task(k).None? && cluster.Alone(k)
      ensures cluster.Reconciled(k)
    {
      ReconcileOnCourse(cluster.sys, cluster.script, k);
      var reply := cluster.GetRequest(k);
      if !reply.Found? {
        return;
      }
      var jobRequest := new RequestObject(reply.value);
      var age := cluster.Since(k, jobRequest.value.created);
      if age >= resourceTtl {
        cluster.DeleteRequest(k);
        return;
      }
      if Terminal(jobRequest.value.status.state) {
        return;
      }
      var valid := ValidateRequestedByAnnotation(k, jobRequest);
      if !valid {
        return;
      }
      var resources := GetTargetResource(k, jobRequest);
      if resources.None? || resources.value == [] {
        return;
      }
      var jobTemplate := CreateJobTemplate(k, resources.value[0], jobRequest.value);
      if jobTemplate.None? {
        return;
      }
      var state := CalculateState(k, jobRequest);
      HandleState(k, state, jobRequest, jobTemplate.value);
    }

    /** The state changes in memory and is sent; a refused or failed update is let pass. */
    method SetState(k: Key, jobRequest: RequestObject, state: RequestState, ghost rest: seq<RequestState>)
      requires cluster.Alone(k) && AboutToWrite(cluster.Task(k), jobRequest.value, [state] + rest)
      modifies cluster`sys, cluster`script, jobRequest
      ensures cluster.OnCourse(k) && AboutToWrite(cluster.Task(k), jobRequest.value, rest)
      ensures jobRequest.value.status == old(jobRequest.value.status).(state := state)
    {
      jobRequest.value := jobRequest.value.WithState(state);
      var ok := cluster.UpdateStatus(k, jobRequest, rest);
    }

    method ValidateRequestedByAnnotation(k: Key, jobRequest: RequestObject) returns (valid: bool)
      requires cluster.Alone(k)
      requires cluster.Task(k) ==
                 Some(if IdentityOf(jobRequest.value.requestedBy).None? then Move(jobRequest.value, Malformed)
                      else FindingDeployment(jobRequest.value))
      modifies cluster`sys, cluster`script, jobRequest
      ensures cluster.OnCourse(k)
      ensures valid <==> NamesSomebody(old(jobRequest.value).requestedBy)
      ensures valid ==> jobRequest.value == old(jobRequest.value) && cluster.Task(k) == Some(FindingDeployment(jobRequest.value))
      ensures !valid ==> cluster.Task(k).None?
    {
      IdentityExactly(jobRequest.value.requestedBy);
      if jobRequest.value.requestedBy.None? {
        SetState(k, jobRequest, Malformed, []);
        return false;
      }
      var identity := ParseUserIdentityFromARN(jobRequest.value.requestedBy.value);
      if identity.None? {
        SetState(k, jobRequest, Malformed, []);
        return false;
      }
      return true;
    }

    method GetTargetResource(k: Key, jobRequest: RequestObject) returns (resources: Option<seq<Deployment>>)
      requires cluster.Alone(k) && cluster.Task(k) == Some(FindingDeployment(jobRequest.value))
      modifies cluster`sys, cluster`script, jobRequest
      ensures cluster.OnCourse(k)
      ensures var deployments := old(Met(cluster.sys, cluster.script)).store.deployments;
              var d := Key(k.namespace, old(jobRequest.value).spec.deployment);
              resources == if old(Head(cluster.script)).outcome != Ok then None
                           else if d in deployments then Some([deployments[d]]) else Some([])
      ensures resources.None? || resources.value == [] ==> cluster.Task(k).None?
      ensures resources.Some? && resources.value != [] ==>
                jobRequest.value == old(jobRequest.value) && cluster.Task(k) == AfterDeployments(jobRequest.value, resources)
    {
      resources := cluster.ListDeployments(k, jobRequest.value.spec.deployment);
      if resources.Some? && resources.value == [] {
        SetState(k, jobRequest, Malformed, []);
      }
    }

    /** The request comes as a copy, so the caller's object keeps its state. */
    method CreateJobTemplate(k: Key, resource: Deployment, jobRequest: JobRequest) returns (job: Option<Job>)
      requires cluster.Alone(k)
      requires cluster.Task(k) ==
                 Some(if JobFor(resource, jobRequest).template.containers == [] then Move(jobRequest, Malformed)
                      else FindingReviews(jobRequest, JobFor(resource, jobRequest)))
      modifies cluster`sys, cluster`script
      ensures cluster.OnCourse(k)
      ensures job.Some? ==> job.value == JobFor(resource, jobRequest) && cluster.Task(k) == Some(FindingReviews(jobRequest, job.value))
      ensures job.None? ==> cluster.Task(k).None?
    {
      var targetContainer := RetrieveContainerFromResource(resource, jobRequest);
      if targetContainer == [] {
        var copy := new RequestObject(jobRequest);
        SetState(k, copy, Malformed, []);
        return None;
      }
      var template := resource.template;
      template := template.(containers := targetContainer);
      template := template.(restartPolicy := "Never");
      template := template.(labels := map[]);
      template := template.(annotations := map[]);
      return Some(Job(jobRequest.uid, template, 0, []));
    }

    /** Pending if the list fails or is empty as it is made, else the state in memory. */
    method CalculateState(k: Key, jobRequest: RequestObject) returns (state: RequestState)
      requires cluster.Alone(k) && cluster.Task(k).Some? && cluster.Task(k).value.FindingReviews?
      requires cluster.Task(k).value.jr == jobRequest.value
      modifies cluster`sys, cluster`script
      ensures cluster.OnCourse(k)
      ensures var met := old(Met(cluster.sys, cluster.script));
              state == if old(Head(cluster.script)).outcome != Ok || !Listed(met.store, k) then Pending
                       else jobRequest.value.status.state
      ensures cluster.Task(k) == AfterState(jobRequest.value, old(cluster.Task(k)).value.job, state)
    {
      ListedExactly(Met(cluster.sys, cluster.script).store, k);
      var reviews := cluster.ListReviews(k);
      if reviews.None? {
        return Pending;
      }
      if reviews.value == {} {
        return Pending;
      }
      return jobRequest.value.status.state;
    }

    method HandleState(k: Key, state: RequestState, jobRequest: RequestObject, jobTemplate: Job)
      requires cluster.Alone(k) && cluster.Task(k) == AfterState(jobRequest.value, jobTemplate, state)
      modifies cluster`sys, cluster`script, jobRequest
      ensures cluster.OnCourse(k) && cluster.Task(k).None?
    {
      match state {
        case Pending =>
          SetState(k, jobRequest, Pending, []);
        case Approved =>
          HandleApproved(k, jobRequest, jobTemplate);
        case Started =>
          HandleStarted(k, jobRequest);
        case _ =>
      }
    }

    method HandleApproved(k: Key, jobRequest: RequestObject, jobTemplate: Job)
      requires cluster.Alone(k) && cluster.Task(k) == Some(LookingUpJob(jobRequest.value, jobTemplate))
      modifies cluster`sys, cluster`script, jobRequest
      ensures cluster.OnCourse(k) && cluster.Task(k).None?
      ensures forall d | jobTemplate == JobFor(d, old(jobRequest.value)) && jobTemplate.template.containers != [] ::
                cluster.ApprovedDone(k, old(jobRequest.value), d)
    {
      forall d | Inv(cluster.sys) && jobTemplate == JobFor(d, jobRequest.value) && jobTemplate.template.containers != []
        ensures ApprovedEnds(cluster.sys, cluster.script, k, jobRequest.value, d, GoOn(cluster.sys, cluster.script, k))
      {
        FromApproved(cluster.sys, cluster.script, k, jobRequest.value, d);
      }
      var reply := cluster.GetJob(k);
      if reply.NotFound? {
        var created := cluster.CreateJob(k, jobTemplate);
        if !created {
          SetState(k, jobRequest, Malformed, []);
          return;
        }
        jobRequest.value := jobRequest.value.(status := jobRequest.value.status.(jobName := k.name));
        SetState(k, jobRequest, Started, []);
      } else if reply.Found? {
        SetState(k, jobRequest, Conflicted, []);
      }
    }

    method HandleStarted(k: Key, jobRequest: RequestObject)
      requires cluster.Alone(k) && cluster.Task(k) == Some(CheckingJob(jobRequest.value))
      modifies cluster`sys, cluster`script, jobRequest
      ensures cluster.OnCourse(k) && cluster.Task(k).None?
      ensures cluster.StartedDone(k, old(jobRequest.value))
    {
      StartedOnCourse(cluster.sys, cluster.script, k, jobRequest.value);
      var job := cluster.GetJob(k);
      if !job.Found? {
        SetState(k, jobRequest, Malformed, []);
        return;
      }
      var again := cluster.GetRequest(k);
      if !again.Found? {
        return;
      }
      jobRequest.value := again.value;
      var conditions := job.value.conditions;
      var i := 0;
      while i < |conditions|
        invariant 0 <= i <= |conditions|
        invariant cluster.OnCourse(k)
        invariant AboutToWrite(cluster.Task(k), jobRequest.value, FinalStates(conditions[i..]))
      {
        var v := conditions[i];
        ghost var rest := FinalStates(conditions[i + 1..]);
        assert conditions[i..][1..] == conditions[i + 1..];
        if (v.kind == JobComplete || v.kind == JobFailed) && v.isTrue {
          if v.kind == JobComplete {
            SetState(k, jobRequest, Complete, rest);
          } else {
            SetState(k, jobRequest, Failed, rest);
          }
        }
        i := i + 1;
      }
    }
  }

  method RetrieveContainerFromResource(resource: Deployment, jobRequest: JobRequest) returns (targetContainer: seq<Container>)
    ensures targetContainer == TargetContainers(resource.template.containers, jobRequest.spec)
  {
    targetContainer := [];
    var containers := resource.template.containers;
    var i := 0;
    while i < |containers|
      invariant 0 <= i <= |containers|
      invariant targetContainer + TargetContainers(containers[i..], jobRequest.spec) == TargetContainers(containers, jobRequest.spec)
    {
      var c := containers[i];
      assert containers[i..][1..] == containers[i + 1..];
      if c.name == jobRequest.spec.container {
        c := c.(command := [jobRequest.spec.command]);
        c := c.(args := jobRequest.spec.args);
        targetContainer := targetContainer + [c];
      }
      i := i + 1;
    }
  }

  /* ---------- the JobRequestReview controller ---------- */

  class JobRequestReviewReconciler {
    const cluster: Cluster
    const resourceTtl: int

    constructor (cluster: Cluster, resourceTtl: int)
      ensures this.cluster == cluster && this.resourceTtl == resourceTtl
    {
      this.cluster, this.resourceTtl := cluster, resourceTtl;
    }

    /** A whole review reconcile, whatever the others do between its calls, whichever calls fail
        and however stale the cache. */
    method Reconcile(rk: Key)
      requires cluster.AloneOnReview(rk) && cluster.ReviewTaskOf(rk).None? && resourceTtl == cluster.sys.store.ttl
      modifies cluster`sys, cluster`script
      ensures cluster.sys == old(ScheduledReview(cluster.sys, cluster.script, rk, Stored(cluster.cache, rk)))
      ensures cluster.ReviewTaskOf(rk).None? && cluster.AloneOnReview(rk)
      ensures cluster.ReviewReconciled(rk)
    {
      ReviewReconcileOnCourse(cluster.sys, cluster.script, rk, Stored(cluster.cache, rk));
      var found := cluster.GetReview(rk);
      if found.None? {
        return;
      }
      var review := new ReviewObject(found.value);
      var age := cluster.SinceReview(rk, review.value.created);
      if age >= resourceTtl {
        cluster.DeleteReview(rk);
        return;
      }
      if review.value.state != Undecided {
        return;
      }
      var valid := ValidateReviewedByAnnotation(rk, review);
      if !valid {
        return;
      }
      var requests := GetJobRequest(rk, review);
      if requests.None? || requests.value == [] {
        return;
      }
      var jobRequest := new RequestObject(requests.value[0]);
      HandleState(rk, jobRequest, review);
    }

    method SetState(rk: Key, review: ReviewObject, state: ReviewState)
      requires cluster.AloneOnReview(rk) && cluster.ReviewTaskOf(rk) == Some(WritingReview(review.value, state))
      modifies cluster`sys, cluster`script, review
      ensures cluster.OnReviewCourse(rk) && cluster.ReviewTaskOf(rk).None?
      ensures review.value.state == state
    {
      review.value := review.value.(state := state);
      var ok := cluster.UpdateReviewStatus(rk, review);
    }

    method ValidateReviewedByAnnotation(rk: Key, review: ReviewObject) returns (valid: bool)
      requires cluster.AloneOnReview(rk)
      requires cluster.ReviewTaskOf(rk) ==
                 Some(if IdentityOf(review.value.reviewedBy).None? then WritingReview(review.value, ReviewMalformed)
                      else FindingRequest(review.value))
      modifies cluster`sys, cluster`script, review
      ensures cluster.OnReviewCourse(rk)
      ensures valid <==> NamesSomebody(old(review.value).reviewedBy)
      ensures valid ==> review.value == old(review.value) && cluster.ReviewTaskOf(rk) == Some(FindingRequest(review.value))
      ensures !valid ==> cluster.ReviewTaskOf(rk).None?
    {
      IdentityExactly(review.value.reviewedBy);
      if review.value.reviewedBy.None? {
        SetState(rk, review, ReviewMalformed);
        return false;
      }
      var identity := ParseUserIdentityFromARN(review.value.reviewedBy.value);
      if identity.None? {
        SetState(rk, review, ReviewMalformed);
        return false;
      }
      return true;
    }

    method GetJobRequest(rk: Key, review: ReviewObject) returns (requests: Option<seq<JobRequest>>)
      requires cluster.AloneOnReview(rk) && cluster.ReviewTaskOf(rk) == Some(FindingRequest(review.value))
      requires review.value.state == Undecided
      modifies cluster`sys, cluster`script, review
      ensures cluster.OnReviewCourse(rk)
      ensures var stored := old(Met(cluster.sys, cluster.script)).store.requests;
              var k := Key(rk.namespace, old(review.value).requestName);
              requests == if old(Head(cluster.script)).outcome != Ok then None
                          else if k in stored then Some([stored[k]]) else Some([])
      ensures requests.None? || requests.value == [] ==> cluster.ReviewTaskOf(rk).None?
      ensures requests.Some? && requests.value != [] ==>
                && review.value == old(review.value)
                && cluster.ReviewTaskOf(rk) == AfterRequest(rk, review.value, requests.value[0])
    {
      requests := cluster.ListRequests(rk, review.value.requestName);
      if requests.Some? && requests.value == [] {
        if review.value.state == ReviewNotFound {
          return;
        }
        SetState(rk, review, ReviewNotFound);
      }
    }

    /** An error, with its verdict written, unless both annotations name users and these differ. */
    method ValidateReviewerAndRequesterDiffer(rk: Key, jobRequest: RequestObject, review: ReviewObject) returns (ok: bool)
      requires cluster.AloneOnReview(rk) && cluster.ReviewTaskOf(rk) == Some(AfterPending(review.value, jobRequest.value))
      modifies cluster`sys, cluster`script, review
      ensures cluster.OnReviewCourse(rk)
      ensures ok <==> TwoUsers(jobRequest.value.requestedBy, old(review.value).reviewedBy)
      ensures ok ==> review.value == old(review.value) && cluster.ReviewTaskOf(rk) == Some(Committing(review.value, jobRequest.value))
      ensures !ok ==> cluster.ReviewTaskOf(rk).None?
    {
      DifferentExactly(jobRequest.value.requestedBy, review.value.reviewedBy);
      if jobRequest.value.requestedBy.None? {
        SetState(rk, review, ReviewMalformed);
        return false;
      }
      var requester := ParseUserIdentityFromARN(jobRequest.value.requestedBy.value);
      if requester.None? {
        SetState(rk, review, ReviewMalformed);
        return false;
      }
      if review.value.reviewedBy.None? {
        SetState(rk, review, ReviewMalformed);
        return false;
      }
      var reviewer := ParseUserIdentityFromARN(review.value.reviewedBy.value);
      if reviewer.None? {
        SetState(rk, review, ReviewMalformed);
        return false;
      }
      if reviewer.value.userName == requester.value.userName {
        SetState(rk, review, ReviewConflict);
        return false;
      }
      return true;
    }

    method HandleReviewDecision(rk: Key, jobRequest: RequestObject, review: ReviewObject)
      requires cluster.AloneOnReview(rk) && cluster.ReviewTaskOf(rk) == Some(AfterPending(review.value, jobRequest.value))
      requires review.value.state == Undecided
      modifies cluster`sys, cluster`script, jobRequest, review
      ensures cluster.OnReviewCourse(rk) && cluster.ReviewTaskOf(rk).None?
    {
      var ok := ValidateReviewerAndRequesterDiffer(rk, jobRequest, review);
      if !ok {
        return;
      }
      jobRequest.value := jobRequest.value.WithState(review.value.decision.AsRequestState());
      jobRequest.value := jobRequest.value.(status := jobRequest.value.status.(reviewName := rk.name));
      var updated := cluster.UpdateDecidedStatus(rk, jobRequest);
      if review.value.state == Undecided {
        match review.value.decision {
          case Approve =>
            SetState(rk, review, ReviewApproved);
          case Reject =>
            SetState(rk, review, ReviewRejected);
        }
      }
    }

    method HandleState(rk: Key, jobRequest: RequestObject, review: ReviewObject)
      requires cluster.AloneOnReview(rk) && cluster.ReviewTaskOf(rk) == AfterRequest(rk, review.value, jobRequest.value)
      requires review.value.state == Undecided
      modifies cluster`sys, cluster`script, jobRequest, review
      ensures cluster.OnReviewCourse(rk) && cluster.ReviewTaskOf(rk).None?
    {
      match jobRequest.value.status.state {
        case Unset =>
        case Malformed =>
          SetState(rk, review, ReviewMalformed);
        case Conflicted =>
          SetState(rk, review, ReviewConflict);
        case Pending =>
          HandleReviewDecision(rk, jobRequest, review);
        case Unlisted(_) =>
        case _ =>
          if !jobRequest.value.WasReviewedBy(rk.name) {
            SetState(rk, review, ReviewConflict);
          }
      }
    }
  }
}
