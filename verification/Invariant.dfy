/** The inductive invariant of the protocol: the log is atomic and determines the store, and
    every copy a reconcile holds is either current or overtaken in the one way that is possible. */
module Invariant {
  import opened Api
  import opened UserIdentity
  import opened Protocol
  import opened History

  /** What never changes about a request: all but its version and status. */
  predicate SameRequest(a: JobRequest, b: JobRequest) {
    a == b.(version := a.version, status := a.status)
  }

  /** A decision was committed after `jr` was read. */
  predicate Overtaken(now: JobRequest, jr: JobRequest) {
    && SameRequest(now, jr) && jr.version < now.version
    && jr.status.state == Pending
    && (now.status.state == Approved || now.status.state == Rejected)
  }

  /** The copy was current when read; nobody but a reviewer can have changed the request since. */
  predicate CurrentOrOvertaken(now: Option<JobRequest>, jr: JobRequest) {
    now.Some? && (now.value == jr || Overtaken(now.value, jr))
  }

  predicate InLoop(state: RequestState) {
    state == Started || state == Complete || state == Failed
  }

  /** An update made from the copy was stored without the caller being told. */
  predicate Behind(now: Option<JobRequest>, jr: JobRequest) {
    && now.Some? && SameRequest(now.value, jr) && jr.version < now.value.version
    && InLoop(jr.status.state) && InLoop(now.value.status.state)
  }

  /** A pending update of the operator, and what it is made from. */
  predicate Update(k: Key, jr: JobRequest, status: RequestStatus, rest: seq<RequestState>) {
    && !jr.status.state.Unlisted?
    && status.reviewName == jr.status.reviewName
    && status.jobName == (if status.state == Started then k.name else jr.status.jobName)
    && match status.state
       case Pending => !Terminal(jr.status.state) && rest == []
       case Malformed => !Terminal(jr.status.state) && rest == []
       case Conflicted => jr.status.state == Approved && rest == []
       case Started => jr.status.state == Approved && rest == []
       case Complete => InLoop(jr.status.state) && Finals(rest)
       case Failed => InLoop(jr.status.state) && Finals(rest)
       case _ => false
  }

  predicate Finals(states: seq<RequestState>) {
    forall i | 0 <= i < |states| :: states[i] == Complete || states[i] == Failed
  }

  /** What a JobRequest reconcile of `k` may hold while `now` is stored. */
  predicate Holds(now: Option<JobRequest>, k: Key, task: RequestTask) {
    match task
    case Fetched(jr) => CurrentOrOvertaken(now, jr)
    case Deleting(jr) => CurrentOrOvertaken(now, jr)
    case FindingDeployment(jr) => CurrentOrOvertaken(now, jr) && !Terminal(jr.status.state)
    case FindingReviews(jr, _) => CurrentOrOvertaken(now, jr) && !Terminal(jr.status.state)
    case LookingUpJob(jr, _) => now == Some(jr) && jr.status.state == Approved
    case CreatingJob(jr, _) => now == Some(jr) && jr.status.state == Approved
    case CheckingJob(jr) => now == Some(jr) && jr.status.state == Started
    case Rereading(jr, _) => now == Some(jr) && jr.status.state == Started
    case Writing(jr, status, rest) =>
      && Update(k, jr, status, rest)
      && (CurrentOrOvertaken(now, jr) || (Behind(now, jr) && InLoop(status.state)))
  }

  function Stored<T>(m: map<Key, T>, k: Key): Option<T> {
    if k in m then Some(m[k]) else None
  }

  /** A copy is recognised by its version. */
  predicate Snapshot(st: Store, k: Key, jr: JobRequest) {
    jr.version <= Rev(st.requestRev, k) && (Fresh(st, k, jr) ==> st.requests[k] == jr)
  }

  predicate HoldsReview(st: Store, rk: Key, task: ReviewTask) {
    && task.rv in SeenOf(st.seen, rk)
    && match task
       case FetchedReview(_) => true
       case DeletingReview(_) => true
       case FindingRequest(rv) => rv.state == Undecided && IdentityOf(rv.reviewedBy).Some?
       case Committing(rv, jr) =>
         && rv.state == Undecided && jr.status.state == Pending
         && DifferentPeople(jr.requestedBy, rv.reviewedBy)
         && Snapshot(st, Target(rk, rv), jr)
       case WritingReview(rv, to) => rv.state == Undecided && Verdict(to)
  }

  /** The parts of two stored forms of one review that never change. */
  predicate SameReview(a: Review, b: Review) {
    a == b.(version := a.version, state := a.state)
  }

  /** Stored requests carry versions already drawn, and so do all requests ever logged. */
  ghost predicate RequestLedger(requests: map<Key, JobRequest>, revs: map<Key, nat>, log: seq<Event>) {
    && (forall k | k in requests ::
          requests[k].uid <= requests[k].version <= Rev(revs, k) && !requests[k].status.state.Unlisted?)
    && (forall e | e in log && AboutRequest(e) :: Uid(e) <= Rev(revs, e.key))
  }

  /** The forms of a review are told apart by their version, the incarnations by their uid. */
  ghost predicate SeenForms(forms: set<Review>, rev: nat) {
    && (forall v | v in forms :: v.uid <= v.version <= rev)
    && (forall v, w | v in forms && w in forms :: (v.version == w.version ==> v == w) && (v.uid == w.uid ==> SameReview(v, w)))
  }

  ghost predicate ReviewLedger(reviews: map<Key, Review>, revs: map<Key, nat>, seen: map<Key, set<Review>>, log: seq<Event>) {
    && (forall rk | rk in reviews :: reviews[rk] in SeenOf(seen, rk))
    && (forall rk | rk in seen :: SeenForms(seen[rk], Rev(revs, rk)))
    && (forall rk, v | v in SeenOf(seen, rk) && v.state == Undecided :: ReviewCreated(rk, v) in log)
    && (forall e | e in log && AboutReview(e) :: ReviewUid(e) <= Rev(revs, e.key))
  }

  /** The store and the log, whatever is in flight. */
  ghost predicate Recorded(s: System) {
    && Atomic(s.log)
    && s.store.requests == Requests(s.log) && s.store.reviews == Reviews(s.log)
    && RequestLedger(s.store.requests, s.store.requestRev, s.log)
    && ReviewLedger(s.store.reviews, s.store.reviewRev, s.store.seen, s.log)
  }

  predicate TasksHold(requests: map<Key, JobRequest>, tasks: map<Key, RequestTask>) {
    forall k | k in tasks :: Holds(Stored(requests, k), k, tasks[k])
  }

  predicate ReviewTasksHold(st: Store, tasks: map<Key, ReviewTask>) {
    forall rk | rk in tasks :: HoldsReview(st, rk, tasks[rk])
  }

  ghost predicate Inv(s: System) {
    Recorded(s) && TasksHold(s.store.requests, s.requestTasks) && ReviewTasksHold(s.store, s.reviewTasks)
  }

  /* ---------- effects keep the records ---------- */

  lemma RequestLedgerKept(requests: map<Key, JobRequest>, revs: map<Key, nat>, log: seq<Event>, e: Event)
    requires RequestLedger(requests, revs, log) && !AboutRequest(e)
    ensures RequestLedger(requests, revs, log + [e])
  {
  }

  lemma ReviewLedgerKept(reviews: map<Key, Review>, revs: map<Key, nat>, seen: map<Key, set<Review>>, log: seq<Event>, e: Event)
    requires ReviewLedger(reviews, revs, seen, log) && !AboutReview(e)
    ensures ReviewLedger(reviews, revs, seen, log + [e])
  {
  }

  /** Storing a request under a newly drawn version. */
  lemma RequestLedgerPut(requests: map<Key, JobRequest>, revs: map<Key, nat>, log: seq<Event>, e: Event, k: Key, jr: JobRequest)
    requires RequestLedger(requests, revs, log)
    requires AboutRequest(e) && e.key == k && Uid(e) <= jr.version && jr.uid <= jr.version
    requires jr.version == Rev(revs, k) + 1 && !jr.status.state.Unlisted?
    ensures RequestLedger(requests[k := jr], revs[k := jr.version], log + [e])
  {
  }

  lemma SeenFormsPut(forms: set<Review>, rev: nat, rv: Review)
    requires SeenForms(forms, rev) && rv.uid <= rv.version == rev + 1
    requires forall v | v in forms && v.uid == rv.uid :: SameReview(v, rv)
    ensures SeenForms(forms + {rv}, rv.version)
  {
    assert forall v | v in forms :: v.version <= rev;
  }

  lemma FormsPut(revs: map<Key, nat>, seen: map<Key, set<Review>>, rk: Key, rv: Review)
    requires forall r | r in seen :: SeenForms(seen[r], Rev(revs, r))
    requires rv.uid <= rv.version == Rev(revs, rk) + 1
    requires forall v | v in SeenOf(seen, rk) && v.uid == rv.uid :: SameReview(v, rv)
    ensures var seen', revs' := seen[rk := SeenOf(seen, rk) + {rv}], revs[rk := rv.version];
            forall r | r in seen' :: SeenForms(seen'[r], Rev(revs', r))
  {
    assert SeenForms(SeenOf(seen, rk), Rev(revs, rk));
    SeenFormsPut(SeenOf(seen, rk), Rev(revs, rk), rv);
  }

  lemma UndecidedPut(seen: map<Key, set<Review>>, log: seq<Event>, e: Event, rk: Key, rv: Review)
    requires forall r, v | v in SeenOf(seen, r) && v.state == Undecided :: ReviewCreated(r, v) in log
    requires rv.state == Undecided ==> e == ReviewCreated(rk, rv)
    ensures var seen' := seen[rk := SeenOf(seen, rk) + {rv}];
            forall r, v | v in SeenOf(seen', r) && v.state == Undecided :: ReviewCreated(r, v) in log + [e]
  {
  }

  lemma ReviewLedgerPut(reviews: map<Key, Review>, revs: map<Key, nat>, seen: map<Key, set<Review>>, log: seq<Event>,
                        e: Event, rk: Key, rv: Review)
    requires ReviewLedger(reviews, revs, seen, log)
    requires AboutReview(e) && e.key == rk && ReviewUid(e) <= rv.version && rv.uid <= rv.version
    requires rv.version == Rev(revs, rk) + 1
    requires rv.state == Undecided ==> e == ReviewCreated(rk, rv)
    requires forall v | v in SeenOf(seen, rk) && v.uid == rv.uid :: SameReview(v, rv)
    ensures ReviewLedger(reviews[rk := rv], revs[rk := rv.version], seen[rk := SeenOf(seen, rk) + {rv}], log + [e])
  {
    FormsPut(revs, seen, rk, rv);
    UndecidedPut(seen, log, e, rk, rv);
  }

  lemma PutStatusRecorded(s: System, k: Key, status: RequestStatus, decider: Option<Decider>)
    requires Recorded(s) && k in s.store.requests
    requires status != s.store.requests[k].status ==> Transition(s.log, k, s.store.requests[k], status, decider)
    ensures Recorded(PutStatus(s, k, status, decider))
  {
    if status != s.store.requests[k].status {
      var s' := PutStatus(s, k, status, decider);
      var was, now := s.store.requests[k], s'.store.requests[k];
      var e := RequestWritten(k, was, now, decider);
      assert !status.state.Unlisted?;
      assert Allowed(s.log, e);
      Appended(s.log, e);
      RequestLedgerPut(s.store.requests, s.store.requestRev, s.log, e, k, now);
      ReviewLedgerKept(s.store.reviews, s.store.reviewRev, s.store.seen, s.log, e);
    }
  }

  lemma DeleteRequestRecorded(s: System, k: Key)
    requires Recorded(s)
    ensures Recorded(DeleteRequest(s, k))
  {
    if k in s.store.requests {
      var e := RequestDeleted(k, s.store.requests[k]);
      Appended(s.log, e);
      ReviewLedgerKept(s.store.reviews, s.store.reviewRev, s.store.seen, s.log, e);
    }
  }

  lemma MakeJobRecorded(s: System, k: Key, jr: JobRequest, job: Job)
    requires Recorded(s) && k in s.store.requests && s.store.requests[k] == jr && jr.status.state == Approved
    ensures Recorded(MakeJob(s, k, jr, job))
  {
    var e := JobCreated(k, jr);
    Appended(s.log, e);
    ReviewLedgerKept(s.store.reviews, s.store.reviewRev, s.store.seen, s.log, e);
  }

  lemma AddRequestRecorded(s: System, k: Key, requestedBy: Option<string>, spec: RequestSpec)
    requires Recorded(s)
    ensures Recorded(AddRequest(s, k, requestedBy, spec))
  {
    if k !in s.store.requests {
      var s' := AddRequest(s, k, requestedBy, spec);
      var e := RequestCreated(k, s'.store.requests[k]);
      Appended(s.log, e);
      RequestLedgerPut(s.store.requests, s.store.requestRev, s.log, e, k, s'.store.requests[k]);
      ReviewLedgerKept(s.store.reviews, s.store.reviewRev, s.store.seen, s.log, e);
    }
  }

  lemma AddReviewRecorded(s: System, rk: Key, reviewedBy: Option<string>, requestName: string, decision: Decision)
    requires Recorded(s)
    ensures Recorded(AddReview(s, rk, reviewedBy, requestName, decision))
  {
    if rk !in s.store.reviews {
      var s' := AddReview(s, rk, reviewedBy, requestName, decision);
      var e := ReviewCreated(rk, s'.store.reviews[rk]);
      Appended(s.log, e);
      RequestLedgerKept(s.store.requests, s.store.requestRev, s.log, e);
      assert rk in s.store.seen ==> SeenForms(s.store.seen[rk], Rev(s.store.reviewRev, rk));
      ReviewLedgerPut(s.store.reviews, s.store.reviewRev, s.store.seen, s.log, e, rk, s'.store.reviews[rk]);
    }
  }

  /** The next form of a stored review differs from its earlier forms in state and version only. */
  lemma NextForm(reviews: map<Key, Review>, revs: map<Key, nat>, seen: map<Key, set<Review>>, log: seq<Event>, rk: Key, now: Review)
    requires ReviewLedger(reviews, revs, seen, log) && rk in reviews && SameReview(now, reviews[rk])
    ensures reviews[rk].uid == now.uid <= reviews[rk].version <= Rev(revs, rk)
    ensures forall v | v in SeenOf(seen, rk) && v.uid == now.uid :: SameReview(v, now)
  {
    assert SeenForms(seen[rk], Rev(revs, rk));
  }

  /** A new form of the stored review, noted with `e`. */
  lemma FileReviewRecorded(s: System, rk: Key, rv: Review, e: Event)
    requires Recorded(s) && Allowed(s.log, e) && AboutReview(e) && e.key == rk
    requires ApplyToReviews(s.store.reviews, e) == s.store.reviews[rk := rv]
    requires ReviewUid(e) <= rv.version && rv.uid <= rv.version && rv.version == Rev(s.store.reviewRev, rk) + 1
    requires rv.state == Undecided ==> e == ReviewCreated(rk, rv)
    requires forall v | v in SeenOf(s.store.seen, rk) && v.uid == rv.uid :: SameReview(v, rv)
    ensures Recorded(FileReview(s, rk, rv, e))
  {
    Appended(s.log, e);
    RequestLedgerKept(s.store.requests, s.store.requestRev, s.log, e);
    ReviewLedgerPut(s.store.reviews, s.store.reviewRev, s.store.seen, s.log, e, rk, rv);
  }

  lemma PutReviewStateIs(s: System, rk: Key, to: ReviewState, was: Review, rv: Review)
    requires Stored(s.store.reviews, rk) == Some(was) && was.state != to
    requires rv == was.(version := Rev(s.store.reviewRev, rk) + 1, state := to)
    ensures PutReviewState(s, rk, to) == FileReview(s, rk, rv, ReviewWritten(rk, was, rv))
  {
  }

  lemma VerdictAllowed(log: seq<Event>, rk: Key, was: Review, now: Review)
    requires Stored(Reviews(log), rk) == Some(was) && was.state == Undecided && Verdict(now.state)
    requires SameReview(now, was) && was.version < now.version
    ensures Allowed(log, ReviewWritten(rk, was, now))
  {
  }

  lemma PutReviewStateRecorded(s: System, rk: Key, to: ReviewState)
    requires Recorded(s) && rk in s.store.reviews && s.store.reviews[rk].state == Undecided && Verdict(to)
    ensures Recorded(PutReviewState(s, rk, to))
  {
    var was := s.store.reviews[rk];
    var now := was.(version := Rev(s.store.reviewRev, rk) + 1, state := to);
    NextForm(s.store.reviews, s.store.reviewRev, s.store.seen, s.log, rk, now);
    VerdictAllowed(s.log, rk, was, now);
    FileReviewRecorded(s, rk, now, ReviewWritten(rk, was, now));
    PutReviewStateIs(s, rk, to, was, now);
  }

  lemma DeleteReviewRecorded(s: System, rk: Key)
    requires Recorded(s)
    ensures Recorded(DeleteReview(s, rk))
  {
    if rk in s.store.reviews {
      var e := ReviewDeleted(rk, s.store.reviews[rk]);
      Appended(s.log, e);
      RequestLedgerKept(s.store.requests, s.store.requestRev, s.log, e);
    }
  }

  /* ---------- what is in flight survives the steps of others ---------- */

  /** The store moves on: reviews once seen stay seen, and a request that is not as before carries
      a version not drawn before. */
  ghost predicate MovesOn(a: Store, b: Store) {
    && (forall rk | rk in a.seen :: rk in b.seen && a.seen[rk] <= b.seen[rk])
    && (forall k | k in a.requestRev :: k in b.requestRev && a.requestRev[k] <= b.requestRev[k])
    && (forall k | k in b.requests :: (k in a.requests && b.requests[k] == a.requests[k]) || b.requests[k].version > Rev(a.requestRev, k))
  }

  lemma ReviewTaskSurvives(a: Store, b: Store, rk: Key, task: ReviewTask)
    requires HoldsReview(a, rk, task) && MovesOn(a, b)
    ensures HoldsReview(b, rk, task)
  {
    if task.Committing? {
      var k := Target(rk, task.rv);
      assert task.jr.version <= Rev(a.requestRev, k) <= Rev(b.requestRev, k);
    }
  }

  lemma PutRequestMovesOn(st: Store, k: Key, jr: JobRequest)
    requires jr.version == Rev(st.requestRev, k) + 1
    ensures MovesOn(st, st.(requests := st.requests[k := jr], requestRev := st.requestRev[k := jr.version]))
  {
  }

  lemma PutStatusMovesOn(s: System, k: Key, status: RequestStatus, decider: Option<Decider>)
    requires k in s.store.requests
    ensures MovesOn(s.store, PutStatus(s, k, status, decider).store)
  {
    PutRequestMovesOn(s.store, k, s.store.requests[k].(version := Rev(s.store.requestRev, k) + 1, status := status));
  }

  lemma StoreReviewMovesOn(st: Store, rk: Key, rv: Review)
    ensures MovesOn(st, StoreReview(st, rk, rv))
  {
  }

  lemma RequestEffectMovesOn(s: System, k: Key, task: RequestTask, outcome: Outcome)
    ensures MovesOn(s.store, RequestEffect(s, k, task, outcome).store)
  {
    if task.Writing? && Fresh(s.store, k, task.jr) {
      PutStatusMovesOn(s, k, task.status, None);
    }
  }

  lemma ReviewEffectMovesOn(s: System, rk: Key, task: ReviewTask, outcome: Outcome)
    ensures MovesOn(s.store, ReviewEffect(s, rk, task, outcome).store)
  {
    match task
    case Committing(rv, jr) =>
      if Fresh(s.store, Target(rk, rv), jr) {
        PutStatusMovesOn(s, Target(rk, rv), DecidedStatus(rk, rv, jr), Some(Decider(rk, rv)));
      }
    case WritingReview(_, to) =>
      if rk in s.store.reviews {
        StoreReviewMovesOn(s.store, rk, s.store.reviews[rk].(version := Rev(s.store.reviewRev, rk) + 1, state := to));
      }
    case _ =>
  }

  /** Every step of anybody moves the store on. */
  lemma StepMovesOn(s: System, a: Action)
    ensures MovesOn(s.store, Step(s, a).store)
  {
    match a
    case StepRequest(k, outcome) =>
      if k in s.requestTasks {
        RequestEffectMovesOn(s, k, s.requestTasks[k], outcome);
      }
    case StepReview(rk, outcome) =>
      if rk in s.reviewTasks {
        ReviewEffectMovesOn(s, rk, s.reviewTasks[rk], outcome);
      }
    case CreateReview(rk, reviewedBy, name, decision) =>
      var v := Rev(s.store.reviewRev, rk) + 1;
      StoreReviewMovesOn(s.store, rk, Review(v, v, s.store.clock, reviewedBy, name, decision, Undecided));
    case _ =>
  }

  /** A decision on `k` leaves what the request's reconcile holds in order. */
  lemma TaskSurvivesDecision(was: JobRequest, now: JobRequest, k: Key, task: RequestTask)
    requires Holds(Some(was), k, task) && was.status.state == Pending
    requires SameRequest(now, was) && was.version < now.version
    requires now.status.state == Approved || now.status.state == Rejected
    ensures Holds(Some(now), k, task)
  {
  }

  /* ---------- a step of a JobRequest reconcile ---------- */

  lemma FinalStatesAreFinal(conditions: seq<Condition>)
    ensures Finals(FinalStates(conditions))
  {
  }

  /** An update sent from a copy that is held is made from what is stored, and is a transition. */
  lemma UpdateIsTransition(s: System, k: Key, jr: JobRequest, status: RequestStatus, rest: seq<RequestState>)
    requires Recorded(s) && Holds(Stored(s.store.requests, k), k, Writing(jr, status, rest)) && Fresh(s.store, k, jr)
    ensures s.store.requests[k] == jr
    ensures status != jr.status ==> Transition(s.log, k, jr, status, None)
  {
  }

  lemma UpdateRecorded(s: System, k: Key, jr: JobRequest, status: RequestStatus, rest: seq<RequestState>)
    requires Recorded(s) && Holds(Stored(s.store.requests, k), k, Writing(jr, status, rest)) && Fresh(s.store, k, jr)
    ensures Recorded(PutStatus(s, k, status, None))
  {
    UpdateIsTransition(s, k, jr, status, rest);
    PutStatusRecorded(s, k, status, None);
  }

  lemma RequestEffectRecorded(s: System, k: Key, task: RequestTask, outcome: Outcome)
    requires Recorded(s) && Holds(Stored(s.store.requests, k), k, task)
    ensures Recorded(RequestEffect(s, k, task, outcome))
  {
    match task
    case Deleting(_) =>
      DeleteRequestRecorded(s, k);
    case CreatingJob(jr, job) =>
      MakeJobRecorded(s, k, jr, job);
    case Writing(jr, status, rest) =>
      if Fresh(s.store, k, jr) {
        UpdateRecorded(s, k, jr, status, rest);
      }
    case _ =>
  }

  /** A reconcile changes no request but its own, and that only by an update or a delete. */
  lemma RequestEffectLocal(s: System, k: Key, task: RequestTask, outcome: Outcome)
    ensures var s' := RequestEffect(s, k, task, outcome);
            && s'.requestTasks == s.requestTasks && s'.reviewTasks == s.reviewTasks
            && (forall k' | k' != k :: Stored(s'.store.requests, k') == Stored(s.store.requests, k'))
            && (!task.Writing? && !task.Deleting? ==> s'.store.requests == s.store.requests)
  {
  }

  /** After any call but an update, what the reconcile holds is in order. */
  lemma CallHolds(s: System, k: Key, task: RequestTask, outcome: Outcome)
    requires Holds(Stored(s.store.requests, k), k, task) && !task.Writing?
    requires k in s.store.requests ==> !s.store.requests[k].status.state.Unlisted?
    ensures var next := RequestNext(s, k, task, outcome);
            next.Some? ==> Holds(Stored(s.store.requests, k), k, next.value)
  {
    match task
    case Rereading(_, conditions) =>
      FinalStatesAreFinal(conditions);
    case _ =>
  }

  /** The loop's next update may follow wherever its last may be sent. */
  lemma LoopUpdate(k: Key, jr: JobRequest, status: RequestStatus, rest: seq<RequestState>, copy: JobRequest)
    requires Update(k, jr, status, rest) && rest != []
    requires copy == jr || copy.status == status
    ensures InLoop(jr.status.state) && InLoop(status.state) && InLoop(copy.status.state) && InLoop(rest[0])
    ensures Update(k, copy, status.(state := rest[0]), rest[1..])
  {
    assert Finals(rest) && Finals(rest[1..]);
  }

  /** The copy held after an update of the loop is current, overtaken, or behind. */
  lemma CopyStands(s: System, k: Key, jr: JobRequest, status: RequestStatus, rest: seq<RequestState>, outcome: Outcome)
    requires Recorded(s) && Holds(Stored(s.store.requests, k), k, Writing(jr, status, rest)) && rest != []
    ensures var now, copy := Stored(AfterUpdate(s, k, jr, status, None, outcome).store.requests, k), CopyAfter(s, k, jr, status, outcome);
            (copy == jr || copy.status == status) && (CurrentOrOvertaken(now, copy) || Behind(now, copy))
  {
    LoopUpdate(k, jr, status, rest, jr);
    if Fresh(s.store, k, jr) {
      UpdateIsTransition(s, k, jr, status, rest);
      assert jr.version <= Rev(s.store.requestRev, k);
    }
  }

  /** After an update the loop goes on from the copy the server returned, or from one that is
      out of date. */
  lemma UpdateHolds(s: System, k: Key, jr: JobRequest, status: RequestStatus, rest: seq<RequestState>, outcome: Outcome)
    requires Recorded(s) && Holds(Stored(s.store.requests, k), k, Writing(jr, status, rest))
    ensures var next := RequestNext(s, k, Writing(jr, status, rest), outcome);
            next.Some? ==> Holds(Stored(AfterUpdate(s, k, jr, status, None, outcome).store.requests, k), k, next.value)
  {
    if rest != [] {
      CopyStands(s, k, jr, status, rest, outcome);
      LoopUpdate(k, jr, status, rest, CopyAfter(s, k, jr, status, outcome));
    }
  }

  lemma RequestStepKeepsTasks(s: System, k: Key, task: RequestTask, outcome: Outcome)
    requires Recorded(s) && TasksHold(s.store.requests, s.requestTasks)
    requires k in s.requestTasks && s.requestTasks[k] == task
    ensures var s' := AdvanceRequest(s, k, task, outcome); TasksHold(s'.store.requests, s'.requestTasks)
  {
    RequestEffectLocal(s, k, task, outcome);
    OwnCallHolds(s, k, task, outcome);
  }

  lemma OwnCallHolds(s: System, k: Key, task: RequestTask, outcome: Outcome)
    requires Recorded(s) && Holds(Stored(s.store.requests, k), k, task)
    ensures var next := RequestNext(s, k, task, outcome);
            next.Some? ==> Holds(Stored(RequestEffect(s, k, task, outcome).store.requests, k), k, next.value)
  {
    if task.Writing? {
      UpdateHolds(s, k, task.jr, task.status, task.rest, outcome);
    } else {
      CallHolds(s, k, task, outcome);
      if !task.Deleting? {
        RequestEffectLocal(s, k, task, outcome);
      }
    }
  }

  /* ---------- a step of a JobRequestReview reconcile ---------- */

  /** A decision sent from a copy is made from what is stored, and is a transition. */
  lemma DecisionIsTransition(s: System, rk: Key, rv: Review, jr: JobRequest)
    requires Recorded(s) && HoldsReview(s.store, rk, Committing(rv, jr)) && Fresh(s.store, Target(rk, rv), jr)
    ensures s.store.requests[Target(rk, rv)] == jr
    ensures Transition(s.log, Target(rk, rv), jr, DecidedStatus(rk, rv, jr), Some(Decider(rk, rv)))
  {
  }

  lemma CommitRecorded(s: System, rk: Key, rv: Review, jr: JobRequest)
    requires Recorded(s) && HoldsReview(s.store, rk, Committing(rv, jr)) && Fresh(s.store, Target(rk, rv), jr)
    ensures Recorded(PutStatus(s, Target(rk, rv), DecidedStatus(rk, rv, jr), Some(Decider(rk, rv))))
  {
    DecisionIsTransition(s, rk, rv, jr);
    PutStatusRecorded(s, Target(rk, rv), DecidedStatus(rk, rv, jr), Some(Decider(rk, rv)));
  }

  /** A review recognised by its version is the stored one. */
  lemma FreshReviewIsStored(st: Store, log: seq<Event>, rk: Key, rv: Review)
    requires ReviewLedger(st.reviews, st.reviewRev, st.seen, log) && rv in SeenOf(st.seen, rk) && FreshReview(st, rk, rv)
    ensures st.reviews[rk] == rv
  {
    assert SeenForms(st.seen[rk], Rev(st.reviewRev, rk));
  }

  lemma VerdictRecorded(s: System, rk: Key, rv: Review, to: ReviewState)
    requires Recorded(s) && HoldsReview(s.store, rk, WritingReview(rv, to)) && FreshReview(s.store, rk, rv)
    ensures Recorded(PutReviewState(s, rk, to))
  {
    FreshReviewIsStored(s.store, s.log, rk, rv);
    PutReviewStateRecorded(s, rk, to);
  }

  lemma CommittingRecorded(s: System, rk: Key, rv: Review, jr: JobRequest, outcome: Outcome)
    requires Recorded(s) && HoldsReview(s.store, rk, Committing(rv, jr))
    ensures Recorded(AfterUpdate(s, Target(rk, rv), jr, DecidedStatus(rk, rv, jr), Some(Decider(rk, rv)), outcome))
  {
    if outcome != Fails && Fresh(s.store, Target(rk, rv), jr) {
      CommitRecorded(s, rk, rv, jr);
    }
  }

  lemma ReviewEffectRecorded(s: System, rk: Key, task: ReviewTask, outcome: Outcome)
    requires Recorded(s) && HoldsReview(s.store, rk, task)
    ensures Recorded(ReviewEffect(s, rk, task, outcome))
  {
    if outcome != Fails {
      if task.DeletingReview? {
        DeleteReviewRecorded(s, rk);
      } else if task.Committing? {
        CommittingRecorded(s, rk, task.rv, task.jr, outcome);
      } else if task.WritingReview? && FreshReview(s.store, rk, task.rv) {
        VerdictRecorded(s, rk, task.rv, task.to);
      }
    }
  }

  /** What a review reconcile holds after a call is in order in the store before it. */
  lemma ReviewNextHolds(st: Store, rk: Key, task: ReviewTask, outcome: Outcome)
    requires HoldsReview(st, rk, task)
    requires forall k | k in st.requests :: st.requests[k].version <= Rev(st.requestRev, k)
    ensures var next := ReviewNext(st, rk, task, outcome); next.Some? ==> HoldsReview(st, rk, next.value)
  {
  }

  lemma CommitSpares(s: System, rk: Key, rv: Review, jr: JobRequest, held: RequestTask)
    requires Recorded(s) && HoldsReview(s.store, rk, Committing(rv, jr)) && Fresh(s.store, Target(rk, rv), jr)
    requires Holds(Stored(s.store.requests, Target(rk, rv)), Target(rk, rv), held)
    ensures var s' := PutStatus(s, Target(rk, rv), DecidedStatus(rk, rv, jr), Some(Decider(rk, rv)));
            Holds(Stored(s'.store.requests, Target(rk, rv)), Target(rk, rv), held)
  {
    var k := Target(rk, rv);
    DecisionIsTransition(s, rk, rv, jr);
    var v := Rev(s.store.requestRev, k) + 1;
    assert jr.version < v;
    TaskSurvivesDecision(jr, jr.(version := v, status := DecidedStatus(rk, rv, jr)), k, held);
  }

  /** Only a decision changes a request, and that leaves its reconcile in order. */
  lemma ReviewEffectSpares(s: System, rk: Key, task: ReviewTask, outcome: Outcome, k: Key, held: RequestTask)
    requires Recorded(s) && HoldsReview(s.store, rk, task)
    requires Holds(Stored(s.store.requests, k), k, held)
    ensures Holds(Stored(ReviewEffect(s, rk, task, outcome).store.requests, k), k, held)
  {
    if outcome != Fails && task.Committing? && Fresh(s.store, Target(rk, task.rv), task.jr) && k == Target(rk, task.rv) {
      CommitSpares(s, rk, task.rv, task.jr, held);
    } else if outcome != Fails {
      ReviewEffectLocal(s, rk, task, outcome);
    }
  }

  /** A review reconcile changes a request only by committing a decision on its target. */
  lemma ReviewEffectLocal(s: System, rk: Key, task: ReviewTask, outcome: Outcome)
    ensures var s' := ReviewEffect(s, rk, task, outcome);
            && s'.requestTasks == s.requestTasks && s'.reviewTasks == s.reviewTasks
            && (forall k | !(task.Committing? && Fresh(s.store, Target(rk, task.rv), task.jr) && k == Target(rk, task.rv)) ::
                  Stored(s'.store.requests, k) == Stored(s.store.requests, k))
  {
  }

  lemma ReviewStepKeepsTasks(s: System, rk: Key, task: ReviewTask, outcome: Outcome)
    requires Recorded(s) && TasksHold(s.store.requests, s.requestTasks) && HoldsReview(s.store, rk, task)
    ensures var s' := AdvanceReview(s, rk, task, outcome); TasksHold(s'.store.requests, s'.requestTasks)
  {
    ReviewEffectLocal(s, rk, task, outcome);
    forall k | k in s.requestTasks
      ensures Holds(Stored(ReviewEffect(s, rk, task, outcome).store.requests, k), k, s.requestTasks[k])
    {
      ReviewEffectSpares(s, rk, task, outcome, k, s.requestTasks[k]);
    }
  }

  /** Review tasks survive when the store moves on. */
  lemma ReviewTasksSurvive(a: Store, b: Store, tasks: map<Key, ReviewTask>)
    requires ReviewTasksHold(a, tasks) && MovesOn(a, b)
    ensures ReviewTasksHold(b, tasks)
  {
    forall rk | rk in tasks ensures HoldsReview(b, rk, tasks[rk]) {
      ReviewTaskSurvives(a, b, rk, tasks[rk]);
    }
  }

  lemma ReviewStepKeepsReviewTasks(s: System, rk: Key, task: ReviewTask, outcome: Outcome)
    requires Recorded(s) && ReviewTasksHold(s.store, s.reviewTasks) && HoldsReview(s.store, rk, task)
    ensures var s' := AdvanceReview(s, rk, task, outcome); ReviewTasksHold(s'.store, s'.reviewTasks)
  {
    ReviewNextHolds(s.store, rk, task, outcome);
    ReviewEffectLocal(s, rk, task, outcome);
    ReviewEffectMovesOn(s, rk, task, outcome);
    var next := ReviewNext(s.store, rk, task, outcome);
    ReviewTasksSurvive(s.store, ReviewEffect(s, rk, task, outcome).store,
                       if next.Some? then s.reviewTasks[rk := next.value] else s.reviewTasks - {rk});
  }

  /** A review reconcile holds the form it began with. */
  lemma ReviewNextSameReview(st: Store, rk: Key, task: ReviewTask, outcome: Outcome)
    ensures var next := ReviewNext(st, rk, task, outcome); next.Some? ==> next.value.rv == task.rv
  {
  }

  /** A review reconcile touches no review but its own. */
  lemma ReviewEffectOwn(s: System, rk: Key, task: ReviewTask, outcome: Outcome)
    ensures var st, st' := s.store, ReviewEffect(s, rk, task, outcome).store;
            && (forall x | x != rk :: Stored(st'.reviews, x) == Stored(st.reviews, x))
            && (!task.DeletingReview? && rk in st.reviews ==> rk in st'.reviews && st'.reviews[rk].uid == st.reviews[rk].uid)
            && (forall x :: SeenOf(st.seen, x) <= SeenOf(st'.seen, x))
  {
  }

  /** The call of a review reconcile, put together. */
  lemma ReviewCallIs(s: System, rk: Key, outcome: Outcome)
    requires rk in s.reviewTasks
    ensures var task, s' := s.reviewTasks[rk], Step(s, StepReview(rk, outcome));
            var e := ReviewEffect(s, rk, task, outcome);
            && s'.store == e.store && s'.log == e.log && s'.requestTasks == s.requestTasks
            && Stored(s'.reviewTasks, rk) == ReviewNext(s.store, rk, task, outcome)
            && forall x | x != rk :: Stored(s'.reviewTasks, x) == Stored(s.reviewTasks, x)
  {
    ReviewEffectLocal(s, rk, s.reviewTasks[rk], outcome);
  }

  /** An update that changes anything is one more write. */
  lemma PutStatusAdds(s: System, k: Key, status: RequestStatus, d: Option<Decider>)
    requires k in s.store.requests && s.store.requests[k].status != status
    ensures var was := s.store.requests[k];
            PutStatus(s, k, status, d).log
            == s.log + [RequestWritten(k, was, was.(version := Rev(s.store.requestRev, k) + 1, status := status), d)]
  {
  }

  /* ---------- time ---------- */

  lemma RequestEffectTime(s: System, k: Key, task: RequestTask, outcome: Outcome)
    ensures var s' := RequestEffect(s, k, task, outcome);
            && s'.store.clock == s.store.clock && s'.store.ttl == s.store.ttl
            && s'.store.reviews == s.store.reviews && s'.store.seen == s.store.seen
  {
  }

  lemma ReviewEffectTime(s: System, rk: Key, task: ReviewTask, outcome: Outcome)
    ensures var s' := ReviewEffect(s, rk, task, outcome); s'.store.clock == s.store.clock && s'.store.ttl == s.store.ttl
  {
  }

  lemma StepTime(s: System, a: Action)
    ensures var s' := Step(s, a); s.store.clock <= s'.store.clock && s.store.ttl == s'.store.ttl
  {
    if a.StepRequest? && a.key in s.requestTasks {
      RequestEffectTime(s, a.key, s.requestTasks[a.key], a.outcome);
    } else if a.StepReview? && a.key in s.reviewTasks {
      ReviewEffectTime(s, a.key, s.reviewTasks[a.key], a.outcome);
    }
  }

  /* ---------- every step keeps the invariant ---------- */

  lemma StepKeepsRecords(s: System, a: Action)
    requires Inv(s)
    ensures Recorded(Step(s, a))
  {
    match a
    case CreateRequest(k, requestedBy, spec) =>
      AddRequestRecorded(s, k, requestedBy, spec);
    case CreateReview(rk, reviewedBy, name, decision) =>
      AddReviewRecorded(s, rk, reviewedBy, name, decision);
    case StepRequest(k, outcome) =>
      if k in s.requestTasks {
        RequestEffectRecorded(s, k, s.requestTasks[k], outcome);
      }
    case StepReview(rk, outcome) =>
      if rk in s.reviewTasks {
        ReviewEffectRecorded(s, rk, s.reviewTasks[rk], outcome);
      }
    case _ =>
  }

  lemma OtherStepKeepsTasks(s: System, a: Action)
    requires TasksHold(s.store.requests, s.requestTasks) && !a.StepRequest? && !a.StepReview?
    ensures TasksHold(Step(s, a).store.requests, Step(s, a).requestTasks)
  {
  }

  lemma StepKeepsTasks(s: System, a: Action)
    requires Inv(s)
    ensures TasksHold(Step(s, a).store.requests, Step(s, a).requestTasks)
  {
    if a.StepRequest? && a.key in s.requestTasks {
      RequestStepKeepsTasks(s, a.key, s.requestTasks[a.key], a.outcome);
    } else if a.StepReview? && a.key in s.reviewTasks {
      ReviewStepKeepsTasks(s, a.key, s.reviewTasks[a.key], a.outcome);
    } else if !a.StepRequest? && !a.StepReview? {
      OtherStepKeepsTasks(s, a);
    }
  }

  lemma StepKeepsReviewTasks(s: System, a: Action)
    requires Inv(s)
    ensures ReviewTasksHold(Step(s, a).store, Step(s, a).reviewTasks)
  {
    if a.StepReview? && a.key in s.reviewTasks {
      ReviewStepKeepsReviewTasks(s, a.key, s.reviewTasks[a.key], a.outcome);
    } else {
      StepMovesOn(s, a);
      ReviewTasksSurvive(s.store, Step(s, a).store, s.reviewTasks);
      if a.StepRequest? && a.key in s.requestTasks {
        RequestEffectLocal(s, a.key, s.requestTasks[a.key], a.outcome);
      }
    }
  }

  lemma StepKeepsInv(s: System, a: Action)
    requires Inv(s)
    ensures Inv(Step(s, a))
  {
    StepKeepsRecords(s, a);
    StepKeepsTasks(s, a);
    StepKeepsReviewTasks(s, a);
  }

  lemma {:induction false} RunKeepsInv(s: System, actions: seq<Action>)
    requires Inv(s)
    ensures Inv(Run(s, actions))
    decreases |actions|
  {
    if actions != [] {
      RunKeepsInv(s, actions[..|actions| - 1]);
      StepKeepsInv(Run(s, actions[..|actions| - 1]), actions[|actions| - 1]);
    }
  }

  lemma InitialInv(s: System)
    requires Initial(s)
    ensures Inv(s)
  {
  }
}
