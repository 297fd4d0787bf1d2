/** The approval protocol as a state machine: one versioned store, the in-flight reconciles of
    the two controllers broken at every API call, and an environment of users, cluster and
    clock. Calls may fail, reconciles may stop half-way, and the review cache may be stale. */
module Protocol {
  import opened Api
  import opened UserIdentity

  /* ---------- the store ---------- */

  /** What the API server holds. Versions are drawn per name from `requestRev` and `reviewRev`,
      which never go back; `seen` holds every stored form of a review, that is, whatever a stale
      cache may still serve. `ttl` is the configured lifetime. */
  datatype Store = Store(
    clock: nat,
    ttl: int,
    requests: map<Key, JobRequest>,
    reviews: map<Key, Review>,
    jobs: map<Key, Job>,
    deployments: map<Key, Deployment>,
    requestRev: map<Key, nat>,
    reviewRev: map<Key, nat>,
    seen: map<Key, set<Review>>)

  function Rev(revs: map<Key, nat>, k: Key): nat {
    if k in revs then revs[k] else 0
  }

  function SeenOf(seen: map<Key, set<Review>>, rk: Key): set<Review> {
    if rk in seen then seen[rk] else {}
  }

  predicate Expired(st: Store, created: nat) {
    st.clock - created >= st.ttl
  }

  /** The keys of the stored reviews of request `k`. */
  function ReviewsOf(st: Store, k: Key): set<Key> {
    set rk | rk in st.reviews && rk.namespace == k.namespace && st.reviews[rk].requestName == k.name
  }

  function Target(rk: Key, rv: Review): Key {
    Key(rk.namespace, rv.requestName)
  }

  /* ---------- what the operator writes down ---------- */

  /** A review and the name it is stored under, as the decider of a request. */
  datatype Decider = Decider(key: Key, review: Review)

  /** The effects on the store, in order. `decider` names the review behind a decision. */
  datatype Event =
    | RequestCreated(key: Key, request: JobRequest)
    | RequestWritten(key: Key, before: JobRequest, after: JobRequest, decider: Option<Decider>)
    | RequestDeleted(key: Key, request: JobRequest)
    | JobCreated(key: Key, request: JobRequest)
    | ReviewCreated(key: Key, review: Review)
    | ReviewWritten(key: Key, pending: Review, decided: Review)
    | ReviewDeleted(key: Key, review: Review)

  /* ---------- in-flight reconciles ---------- */

  /** What a JobRequest reconcile holds and the call it makes next. `Writing` is a status update
      from the copy last exchanged with the server; `rest` are the states still to be written
      by the loop over the Job's conditions. */
  datatype RequestTask =
    | Fetched(jr: JobRequest)
    | Deleting(jr: JobRequest)
    | FindingDeployment(jr: JobRequest)
    | FindingReviews(jr: JobRequest, job: Job)
    | LookingUpJob(jr: JobRequest, job: Job)
    | CreatingJob(jr: JobRequest, job: Job)
    | CheckingJob(jr: JobRequest)
    | Rereading(jr: JobRequest, conditions: seq<Condition>)
    | Writing(jr: JobRequest, status: RequestStatus, rest: seq<RequestState>)

  datatype ReviewTask =
    | FetchedReview(rv: Review)
    | DeletingReview(rv: Review)
    | FindingRequest(rv: Review)
    | Committing(rv: Review, jr: JobRequest)
    | WritingReview(rv: Review, to: ReviewState)

  datatype System = System(
    store: Store,
    requestTasks: map<Key, RequestTask>,
    reviewTasks: map<Key, ReviewTask>,
    log: seq<Event>)

  /** How a call ends: well, without effect, or with its effect but an error to the caller. */
  datatype Outcome = Ok | Fails | Lost

  datatype Action =
    | CreateRequest(key: Key, requestedBy: Option<string>, spec: RequestSpec)
    | CreateReview(key: Key, reviewedBy: Option<string>, requestName: string, decision: Decision)
    | SetJob(key: Key, job: Option<Job>)
    | SetDeployment(key: Key, deployment: Option<Deployment>)
    | Tick(elapsed: nat)
    | StartRequest(key: Key, outcome: Outcome)
    | StepRequest(key: Key, outcome: Outcome)
    | StopRequest(key: Key)
    | StartReview(key: Key, cached: Option<Review>)
    | StepReview(key: Key, outcome: Outcome)
    | StopReview(key: Key)

  /* ---------- what the controllers do with what they hold ---------- */

  /** Write `state` to the held request, and end. */
  function Move(jr: JobRequest, state: RequestState): RequestTask {
    Writing(jr, jr.WithState(state).status, [])
  }

  function AfterFetch(st: Store, jr: JobRequest): Option<RequestTask> {
    AfterAge(jr, st.clock - jr.created, st.ttl)
  }

  function AfterAge(jr: JobRequest, age: int, ttl: int): Option<RequestTask> {
    if age >= ttl then Some(Deleting(jr))
    else if Terminal(jr.status.state) then None
    else if IdentityOf(jr.requestedBy).None? then Some(Move(jr, Malformed))
    else Some(FindingDeployment(jr))
  }

  /** The containers of the wanted name, with the requested command in them. */
  function TargetContainers(containers: seq<Container>, spec: RequestSpec): seq<Container> {
    if containers == [] then []
    else
      var rest := TargetContainers(containers[1..], spec);
      var c := containers[0];
      if c.name == spec.container then [c.(command := [spec.command], args := spec.args)] + rest else rest
  }

  function JobFor(d: Deployment, jr: JobRequest): Job {
    Job(jr.uid,
        d.template.(containers := TargetContainers(d.template.containers, jr.spec),
                    restartPolicy := "Never", labels := map[], annotations := map[]),
        0, [])
  }

  function DeploymentKey(k: Key, jr: JobRequest): Key {
    Key(k.namespace, jr.spec.deployment)
  }

  /** `found` is the answer of the list call; an error ends the reconcile. */
  function AfterDeployments(jr: JobRequest, found: Option<seq<Deployment>>): Option<RequestTask> {
    if found.None? then None
    else if found.value == [] then Some(Move(jr, Malformed))
    else
      var job := JobFor(found.value[0], jr);
      if job.template.containers == [] then Some(Move(jr, Malformed)) else Some(FindingReviews(jr, job))
  }

  function CalculateState(jr: JobRequest, found: Option<set<Key>>): RequestState {
    if found.None? || found.value == {} then Pending else jr.status.state
  }

  function AfterState(jr: JobRequest, job: Job, state: RequestState): Option<RequestTask> {
    match state
    case Pending => Some(Move(jr, Pending))
    case Approved => Some(LookingUpJob(jr, job))
    case Started => Some(CheckingJob(jr))
    case _ => None
  }

  /** A Get of one object: the object, its absence, or an error. */
  datatype Reply<+T> = Found(value: T) | NotFound | Errored

  function AfterLookup(jr: JobRequest, job: Job, reply: Reply<Job>): Option<RequestTask> {
    match reply
    case NotFound => Some(CreatingJob(jr, job))
    case Errored => None
    case Found(_) => Some(Move(jr, Conflicted))
  }

  function AfterCreate(k: Key, jr: JobRequest, created: bool): RequestTask {
    if created then Writing(jr, jr.status.(state := Started, jobName := k.name), []) else Move(jr, Malformed)
  }

  function AfterCheck(jr: JobRequest, reply: Reply<Job>): RequestTask {
    match reply
    case Found(job) => Rereading(jr, job.conditions)
    case _ => Move(jr, Malformed)
  }

  /** The states the loop over the conditions writes, in order. */
  function FinalStates(conditions: seq<Condition>): seq<RequestState> {
    if conditions == [] then []
    else
      var c := conditions[0];
      (if !c.isTrue then [] else if c.kind == JobComplete then [Complete] else if c.kind == JobFailed then [Failed] else [])
      + FinalStates(conditions[1..])
  }

  function AfterReread(reply: Reply<JobRequest>, conditions: seq<Condition>): Option<RequestTask> {
    match reply
    case Found(jr) => NextWrite(jr, jr.status, FinalStates(conditions))
    case _ => None
  }

  /** The next write of the loop, from the copy `jr` with `status` in memory. */
  function NextWrite(jr: JobRequest, status: RequestStatus, states: seq<RequestState>): Option<RequestTask> {
    if states == [] then None else Some(Writing(jr, status.(state := states[0]), states[1..]))
  }

  function AfterFetchReview(st: Store, rv: Review): Option<ReviewTask> {
    AfterReviewAge(rv, st.clock - rv.created, st.ttl)
  }

  function AfterReviewAge(rv: Review, age: int, ttl: int): Option<ReviewTask> {
    if age >= ttl then Some(DeletingReview(rv))
    else if rv.state != Undecided then None
    else if IdentityOf(rv.reviewedBy).None? then Some(WritingReview(rv, ReviewMalformed))
    else Some(FindingRequest(rv))
  }

  /** `found` is the answer of the list call; an error ends the reconcile. */
  function AfterRequests(rk: Key, rv: Review, found: Option<seq<JobRequest>>): Option<ReviewTask> {
    if found.None? then None
    else if found.value == [] then Some(WritingReview(rv, ReviewNotFound))
    else AfterRequest(rk, rv, found.value[0])
  }

  function AfterRequest(rk: Key, rv: Review, jr: JobRequest): Option<ReviewTask> {
    match jr.status.state
    case Unset => None
    case Malformed => Some(WritingReview(rv, ReviewMalformed))
    case Conflicted => Some(WritingReview(rv, ReviewConflict))
    case Pending => Some(AfterPending(rv, jr))
    case Unlisted(_) => None
    case _ => if jr.WasReviewedBy(rk.name) then None else Some(WritingReview(rv, ReviewConflict))
  }

  function AfterPending(rv: Review, jr: JobRequest): ReviewTask {
    if IdentityOf(jr.requestedBy).None? || IdentityOf(rv.reviewedBy).None? then WritingReview(rv, ReviewMalformed)
    else if !DifferentPeople(jr.requestedBy, rv.reviewedBy) then WritingReview(rv, ReviewConflict)
    else Committing(rv, jr)
  }

  function DecidedStatus(rk: Key, rv: Review, jr: JobRequest): RequestStatus {
    jr.status.(state := rv.decision.AsRequestState(), reviewName := rk.name)
  }

  /* ---------- effects on the store ---------- */

  function Note(s: System, e: Event): System {
    s.(log := s.log + [e])
  }

  /** A request is stored under a newly drawn version, and that is noted. */
  function FileRequest(s: System, k: Key, jr: JobRequest, e: Event): System {
    Note(s.(store := s.store.(requests := s.store.requests[k := jr], requestRev := s.store.requestRev[k := jr.version])), e)
  }

  /** The update is made from the version that is stored. */
  predicate Fresh(st: Store, k: Key, jr: JobRequest) {
    k in st.requests && st.requests[k].version == jr.version
  }

  /** An accepted status update. An update that changes nothing leaves the object, and so its
      version, as it is. */
  function PutStatus(s: System, k: Key, status: RequestStatus, decider: Option<Decider>): System
    requires k in s.store.requests
  {
    var was := s.store.requests[k];
    if was.status == status then s
    else
      var v := Rev(s.store.requestRev, k) + 1;
      var jr := was.(version := v, status := status);
      FileRequest(s, k, jr, RequestWritten(k, was, jr, decider))
  }

  function DeleteRequest(s: System, k: Key): System {
    if k !in s.store.requests then s
    else Note(s.(store := s.store.(requests := s.store.requests - {k})), RequestDeleted(k, s.store.requests[k]))
  }

  function MakeJob(s: System, k: Key, jr: JobRequest, job: Job): System {
    Note(s.(store := s.store.(jobs := s.store.jobs[k := job])), JobCreated(k, jr))
  }

  predicate FreshReview(st: Store, rk: Key, rv: Review) {
    rk in st.reviews && st.reviews[rk].version == rv.version
  }

  function StoreReview(st: Store, rk: Key, rv: Review): Store {
    st.(reviews := st.reviews[rk := rv],
        reviewRev := st.reviewRev[rk := rv.version],
        seen := st.seen[rk := SeenOf(st.seen, rk) + {rv}])
  }

  function FileReview(s: System, rk: Key, rv: Review, e: Event): System {
    Note(s.(store := StoreReview(s.store, rk, rv)), e)
  }

  function PutReviewState(s: System, rk: Key, to: ReviewState): System
    requires rk in s.store.reviews
  {
    var was := s.store.reviews[rk];
    if was.state == to then s
    else
      var v := Rev(s.store.reviewRev, rk) + 1;
      var rv := was.(version := v, state := to);
      FileReview(s, rk, rv, ReviewWritten(rk, was, rv))
  }

  function DeleteReview(s: System, rk: Key): System {
    if rk !in s.store.reviews then s
    else Note(s.(store := s.store.(reviews := s.store.reviews - {rk})), ReviewDeleted(rk, s.store.reviews[rk]))
  }

  /* ---------- replies ---------- */

  function Reading<T>(m: map<Key, T>, k: Key, outcome: Outcome): Reply<T> {
    if outcome != Ok then Errored else if k in m then Found(m[k]) else NotFound
  }

  /** A list selected by name: at most one item. */
  function Named<T>(m: map<Key, T>, k: Key): seq<T> {
    if k in m then [m[k]] else []
  }

  function Listing<T>(items: T, outcome: Outcome): Option<T> {
    if outcome == Ok then Some(items) else None
  }

  /* ---------- steps ---------- */

  /** Go on with `next`, or end the reconcile. */
  function Proceed(s: System, k: Key, next: Option<RequestTask>): System {
    s.(requestTasks := if next.Some? then s.requestTasks[k := next.value] else s.requestTasks - {k})
  }

  function ProceedReview(s: System, rk: Key, next: Option<ReviewTask>): System {
    s.(reviewTasks := if next.Some? then s.reviewTasks[rk := next.value] else s.reviewTasks - {rk})
  }

  function BeginRequest(s: System, k: Key, outcome: Outcome): System {
    match Reading(s.store.requests, k, outcome)
    case Found(jr) => Proceed(s, k, Some(Fetched(jr)))
    case _ => s
  }

  /** The system after an update sent from the copy `jr`: refused unless that is the version stored. */
  function AfterUpdate(s: System, k: Key, jr: JobRequest, status: RequestStatus, decider: Option<Decider>, outcome: Outcome): System {
    if outcome != Fails && Fresh(s.store, k, jr) then PutStatus(s, k, status, decider) else s
  }

  /** The copy the caller holds afterwards: refreshed when the update reported success. */
  function CopyAfter(s: System, k: Key, jr: JobRequest, status: RequestStatus, outcome: Outcome): JobRequest {
    if outcome == Ok && Fresh(s.store, k, jr) then PutStatus(s, k, status, None).store.requests[k] else jr
  }

  /** What the next call of a JobRequest reconcile does to the store. */
  function RequestEffect(s: System, k: Key, task: RequestTask, outcome: Outcome): System {
    if outcome == Fails then s
    else
      match task
      case Deleting(_) => DeleteRequest(s, k)
      case CreatingJob(jr, job) => if k in s.store.jobs then s else MakeJob(s, k, jr, job)
      case Writing(jr, status, _) => AfterUpdate(s, k, jr, status, None, outcome)
      case _ => s
  }

  /** What the reconcile holds after that call, or `None` when it is over. */
  function RequestNext(s: System, k: Key, task: RequestTask, outcome: Outcome): Option<RequestTask> {
    var st := s.store;
    match task
    case Fetched(jr) => AfterFetch(st, jr)
    case Deleting(_) => None
    case FindingDeployment(jr) => AfterDeployments(jr, Listing(Named(st.deployments, DeploymentKey(k, jr)), outcome))
    case FindingReviews(jr, job) => AfterState(jr, job, CalculateState(jr, Listing(ReviewsOf(st, k), outcome)))
    case LookingUpJob(jr, job) => AfterLookup(jr, job, Reading(st.jobs, k, outcome))
    case CreatingJob(jr, job) => Some(AfterCreate(k, jr, outcome == Ok && k !in st.jobs))
    case CheckingJob(jr) => Some(AfterCheck(jr, Reading(st.jobs, k, outcome)))
    case Rereading(_, conditions) => AfterReread(Reading(st.requests, k, outcome), conditions)
    case Writing(jr, status, rest) => NextWrite(CopyAfter(s, k, jr, status, outcome), status, rest)
  }

  function AdvanceRequest(s: System, k: Key, task: RequestTask, outcome: Outcome): System {
    Proceed(RequestEffect(s, k, task, outcome), k, RequestNext(s, k, task, outcome))
  }

  function BeginReview(s: System, rk: Key, cached: Option<Review>): System {
    if cached.Some? && cached.value in SeenOf(s.store.seen, rk) then ProceedReview(s, rk, Some(FetchedReview(cached.value))) else s
  }

  /** What the next call of a JobRequestReview reconcile does to the store. */
  function ReviewEffect(s: System, rk: Key, task: ReviewTask, outcome: Outcome): System {
    if outcome == Fails then s
    else
      match task
      case DeletingReview(_) => DeleteReview(s, rk)
      case Committing(rv, jr) =>
        AfterUpdate(s, Target(rk, rv), jr, DecidedStatus(rk, rv, jr), Some(Decider(rk, rv)), outcome)
      case WritingReview(rv, to) => if FreshReview(s.store, rk, rv) then PutReviewState(s, rk, to) else s
      case _ => s
  }

  function ReviewNext(st: Store, rk: Key, task: ReviewTask, outcome: Outcome): Option<ReviewTask> {
    match task
    case FetchedReview(rv) => AfterFetchReview(st, rv)
    case DeletingReview(_) => None
    case FindingRequest(rv) => AfterRequests(rk, rv, Listing(Named(st.requests, Target(rk, rv)), outcome))
    case Committing(rv, _) => Some(WritingReview(rv, rv.decision.AsReviewState()))
    case WritingReview(_, _) => None
  }

  function AdvanceReview(s: System, rk: Key, task: ReviewTask, outcome: Outcome): System {
    ProceedReview(ReviewEffect(s, rk, task, outcome), rk, ReviewNext(s.store, rk, task, outcome))
  }

  function AddRequest(s: System, k: Key, requestedBy: Option<string>, spec: RequestSpec): System {
    if k in s.store.requests then s
    else
      var v := Rev(s.store.requestRev, k) + 1;
      var jr := JobRequest(v, v, s.store.clock, requestedBy, spec, BLANK_STATUS);
      FileRequest(s, k, jr, RequestCreated(k, jr))
  }

  function AddReview(s: System, rk: Key, reviewedBy: Option<string>, requestName: string, decision: Decision): System {
    if rk in s.store.reviews then s
    else
      var v := Rev(s.store.reviewRev, rk) + 1;
      var rv := Review(v, v, s.store.clock, reviewedBy, requestName, decision, Undecided);
      FileReview(s, rk, rv, ReviewCreated(rk, rv))
  }

  function Assign<T>(m: map<Key, T>, k: Key, v: Option<T>): map<Key, T> {
    if v.Some? then m[k := v.value] else m - {k}
  }

  /** One step of anybody. A step that cannot be taken leaves the system as it is. */
  function Step(s: System, a: Action): System {
    match a
    case CreateRequest(k, requestedBy, spec) => AddRequest(s, k, requestedBy, spec)
    case CreateReview(rk, reviewedBy, name, decision) => AddReview(s, rk, reviewedBy, name, decision)
    case SetJob(k, job) => s.(store := s.store.(jobs := Assign(s.store.jobs, k, job)))
    case SetDeployment(k, d) => s.(store := s.store.(deployments := Assign(s.store.deployments, k, d)))
    case Tick(elapsed) => s.(store := s.store.(clock := s.store.clock + elapsed))
    case StartRequest(k, outcome) => if k in s.requestTasks then s else BeginRequest(s, k, outcome)
    case StepRequest(k, outcome) => if k in s.requestTasks then AdvanceRequest(s, k, s.requestTasks[k], outcome) else s
    case StopRequest(k) => Proceed(s, k, None)
    case StartReview(rk, cached) => if rk in s.reviewTasks then s else BeginReview(s, rk, cached)
    case StepReview(rk, outcome) => if rk in s.reviewTasks then AdvanceReview(s, rk, s.reviewTasks[rk], outcome) else s
    case StopReview(rk) => ProceedReview(s, rk, None)
  }

  /** Any interleaving is a sequence of steps. */
  function Run(s: System, actions: seq<Action>): System {
    if actions == [] then s else Step(Run(s, actions[..|actions| - 1]), actions[|actions| - 1])
  }

  /** No requests or reviews yet and nothing in flight; Jobs and Deployments may be there. */
  predicate Initial(s: System) {
    && s.store.requests == map[] && s.store.reviews == map[]
    && s.store.requestRev == map[] && s.store.reviewRev == map[] && s.store.seen == map[]
    && s.requestTasks == map[] && s.reviewTasks == map[] && s.log == []
  }
}
