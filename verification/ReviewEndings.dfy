/** How a JobRequestReview reconcile ends, from whatever form the cache serves, for every way in which its
    calls may end and whatever others do between them, in the fields of the objects stored. */
module ReviewEndings {
  import opened Api
  import opened UserIdentity
  import opened Protocol
  import opened Invariant
  import opened Sequential
  import opened Schedule
  import opened Endings

  function AfterReviewCall(s: System, schedule: seq<Turn>, rk: Key): System {
    Step(Met(s, schedule), StepReview(rk, Head(schedule).outcome))
  }

  /* ---------- what is done about what is met ---------- */

  /** The last call deletes whatever review is stored under the name, unless it has no effect. */
  predicate ReviewRemovalEnds(s: System, schedule: seq<Turn>, rk: Key, end: System) {
    var m := Met(s, schedule).store;
    end.store == if Head(schedule).outcome == Fails then m else m.(reviews := m.reviews - {rk})
  }

  /** The last call sends verdict `to`. It is stored exactly when the call has an effect and the review
      stored is the form in hand. */
  predicate VerdictEnds(s: System, schedule: seq<Turn>, rk: Key, v: Review, to: ReviewState, end: System) {
    Said(Met(s, schedule).store, Head(schedule).outcome, end.store, rk, v, to)
  }

  predicate Said(m: Store, outcome: Outcome, st: Store, rk: Key, v: Review, to: ReviewState) {
    && st == m.(reviews := st.reviews, reviewRev := st.reviewRev, seen := st.seen)
    && st.reviews - {rk} == m.reviews - {rk}
    && if outcome != Fails && Stored(m.reviews, rk) == Some(v)
       then rk in st.reviews && SameReview(st.reviews[rk], v) && st.reviews[rk].state == to
       else Stored(st.reviews, rk) == Stored(m.reviews, rk)
  }

  /** From the call on that finds the age of the form served. */
  ghost predicate ServedEnds(s: System, schedule: seq<Turn>, rk: Key, v: Review, end: System) {
    var st := Met(s, schedule).store;
    var next, rest := AfterReviewCall(s, schedule, rk), Tail(schedule);
    if st.clock - v.created >= st.ttl then ReviewRemovalEnds(next, rest, rk, end)
    else if v.state != Undecided then OverEnds(s, schedule, end)
    else if !NamesSomebody(v.reviewedBy) then VerdictEnds(next, rest, rk, v, ReviewMalformed, end)
    else LookUpEnds(next, rest, rk, v, end)
  }

  /** From the call on that looks the request up. */
  ghost predicate LookUpEnds(s: System, schedule: seq<Turn>, rk: Key, v: Review, end: System) {
    var st, k := Met(s, schedule).store, Key(rk.namespace, v.requestName);
    var next, rest := AfterReviewCall(s, schedule, rk), Tail(schedule);
    if Head(schedule).outcome != Ok then OverEnds(s, schedule, end)
    else if k !in st.requests then VerdictEnds(next, rest, rk, v, ReviewNotFound, end)
    else
      var jr := st.requests[k];
      match jr.status.state
      case Unset => OverEnds(s, schedule, end)
      case Malformed => VerdictEnds(next, rest, rk, v, ReviewMalformed, end)
      case Conflicted => VerdictEnds(next, rest, rk, v, ReviewConflict, end)
      case Pending =>
        if !NamesSomebody(jr.requestedBy) then VerdictEnds(next, rest, rk, v, ReviewMalformed, end)
        else if !TwoUsers(jr.requestedBy, v.reviewedBy) then VerdictEnds(next, rest, rk, v, ReviewConflict, end)
        else DecisionEnds(next, rest, rk, v, jr, end)
      case Unlisted(_) => OverEnds(s, schedule, end)
      case _ =>
        if jr.status.reviewName == rk.name then OverEnds(s, schedule, end)
        else VerdictEnds(next, rest, rk, v, ReviewConflict, end)
  }

  /** From the call on that sends the decision: it is applied exactly when that has an effect and the
      request stored is the one found, and the verdict follows in any case. */
  predicate DecisionEnds(s: System, schedule: seq<Turn>, rk: Key, v: Review, jr: JobRequest, end: System) {
    var m, k := Met(s, schedule).store, Key(rk.namespace, v.requestName);
    var next, rest := AfterReviewCall(s, schedule, rk), Tail(schedule);
    var state := if v.decision == Approve then Approved else Rejected;
    && Updated(m, Head(schedule).outcome, next.store, k, jr, RequestStatus(jr.status.jobName, state, rk.name))
    && VerdictEnds(next, rest, rk, v, if v.decision == Approve then ReviewApproved else ReviewRejected, end)
  }

  /** A whole reconcile, from a form that was stored under the name once; without one it does nothing. */
  ghost predicate ReviewEnds(s: System, schedule: seq<Turn>, rk: Key, cached: Option<Review>, end: System) {
    var m := Met(s, schedule);
    if cached.Some? && rk in m.store.seen && cached.value in m.store.seen[rk]
    then ServedEnds(Step(m, StartReview(rk, cached)), Tail(schedule), rk, cached.value, end)
    else end == m
  }

  /* ---------- single calls ---------- */

  lemma ReviewIsOver(s: System, schedule: seq<Turn>, rk: Key)
    requires ForeignToReview(schedule, rk) && Stored(s.reviewTasks, rk) == None
    ensures GoOnReview(s, schedule, rk) == s
  {
  }

  lemma OwnReviewCall(s: System, schedule: seq<Turn>, rk: Key, task: ReviewTask)
    requires Inv(s) && ForeignToReview(schedule, rk) && Stored(s.reviewTasks, rk) == Some(task)
    ensures var m, s', o := Met(s, schedule), AfterReviewCall(s, schedule, rk), Head(schedule).outcome;
            && Inv(m) && HoldsReview(m.store, rk, task) && Inv(s') && ForeignToReview(Tail(schedule), rk)
            && Stored(s'.reviewTasks, rk) == ReviewNext(m.store, rk, task, o) && s'.store == ReviewEffect(m, rk, task, o).store
            && GoOnReview(s, schedule, rk) == GoOnReview(s', Tail(schedule), rk)
  {
    var m := Met(s, schedule);
    MeetingKeepsReviewTask(s, schedule, rk);
    RunKeepsInv(s, Head(schedule).others);
    StepKeepsInv(m, StepReview(rk, Head(schedule).outcome));
    assert m.reviewTasks[rk] == task;
    ReviewCallIs(m, rk, Head(schedule).outcome);
  }

  lemma ReviewGoesOn(s: System, schedule: seq<Turn>, rk: Key, task: ReviewTask, next: ReviewTask)
    requires Inv(s) && ForeignToReview(schedule, rk) && Stored(s.reviewTasks, rk) == Some(task)
    requires ReviewNext(Met(s, schedule).store, rk, task, Head(schedule).outcome) == Some(next)
    ensures var s' := AfterReviewCall(s, schedule, rk);
            && Inv(s') && ForeignToReview(Tail(schedule), rk) && Stored(s'.reviewTasks, rk) == Some(next)
            && GoOnReview(s, schedule, rk) == GoOnReview(s', Tail(schedule), rk)
  {
    OwnReviewCall(s, schedule, rk, task);
  }

  lemma ReviewStopsHere(s: System, schedule: seq<Turn>, rk: Key, task: ReviewTask)
    requires Inv(s) && ForeignToReview(schedule, rk) && Stored(s.reviewTasks, rk) == Some(task)
    requires task.FetchedReview? || task.FindingRequest?
    requires ReviewNext(Met(s, schedule).store, rk, task, Head(schedule).outcome) == None
    ensures OverEnds(s, schedule, GoOnReview(s, schedule, rk))
  {
    OwnReviewCall(s, schedule, rk, task);
    ReviewIsOver(AfterReviewCall(s, schedule, rk), Tail(schedule), rk);
  }

  lemma RemovesExactly(m: System, rk: Key, v: Review, outcome: Outcome)
    ensures var st := ReviewEffect(m, rk, DeletingReview(v), outcome).store;
            st == if outcome == Fails then m.store else m.store.(reviews := m.store.reviews - {rk})
  {
    if rk !in m.store.reviews {
      assert m.store.reviews - {rk} == m.store.reviews;
    }
  }

  lemma ReviewRemovesHere(s: System, schedule: seq<Turn>, rk: Key, v: Review)
    requires Inv(s) && ForeignToReview(schedule, rk) && Stored(s.reviewTasks, rk) == Some(DeletingReview(v))
    ensures ReviewRemovalEnds(s, schedule, rk, GoOnReview(s, schedule, rk))
  {
    OwnReviewCall(s, schedule, rk, DeletingReview(v));
    ReviewIsOver(AfterReviewCall(s, schedule, rk), Tail(schedule), rk);
    RemovesExactly(Met(s, schedule), rk, v, Head(schedule).outcome);
  }

  lemma PutIsSaid(m: System, rk: Key, v: Review, to: ReviewState, outcome: Outcome)
    requires Stored(m.store.reviews, rk) == Some(v) && outcome != Fails
    ensures Said(m.store, outcome, PutReviewState(m, rk, to).store, rk, v, to)
  {
    if v.state != to {
      var now := v.(version := Rev(m.store.reviewRev, rk) + 1, state := to);
      PutReviewStateIs(m, rk, to, v, now);
      PutThenDrop(m.store.reviews, rk, now);
    }
  }

  lemma SentIsSaid(m: System, rk: Key, v: Review, to: ReviewState, outcome: Outcome)
    requires Inv(m) && HoldsReview(m.store, rk, WritingReview(v, to))
    ensures Said(m.store, outcome, ReviewEffect(m, rk, WritingReview(v, to), outcome).store, rk, v, to)
  {
    if outcome != Fails && FreshReview(m.store, rk, v) {
      FreshReviewIsStored(m.store, m.log, rk, v);
      PutIsSaid(m, rk, v, to, outcome);
    } else {
      assert ReviewEffect(m, rk, WritingReview(v, to), outcome) == m;
    }
  }

  lemma SaysHere(s: System, schedule: seq<Turn>, rk: Key, v: Review, to: ReviewState)
    requires Inv(s) && ForeignToReview(schedule, rk) && Stored(s.reviewTasks, rk) == Some(WritingReview(v, to))
    ensures VerdictEnds(s, schedule, rk, v, to, GoOnReview(s, schedule, rk))
  {
    OwnReviewCall(s, schedule, rk, WritingReview(v, to));
    ReviewIsOver(AfterReviewCall(s, schedule, rk), Tail(schedule), rk);
    SentIsSaid(Met(s, schedule), rk, v, to, Head(schedule).outcome);
  }

  /** A call after which one verdict is left to send. */
  lemma ThenSays(s: System, schedule: seq<Turn>, rk: Key, v: Review, task: ReviewTask, to: ReviewState)
    requires Inv(s) && ForeignToReview(schedule, rk) && Stored(s.reviewTasks, rk) == Some(task)
    requires ReviewNext(Met(s, schedule).store, rk, task, Head(schedule).outcome) == Some(WritingReview(v, to))
    ensures VerdictEnds(AfterReviewCall(s, schedule, rk), Tail(schedule), rk, v, to, GoOnReview(s, schedule, rk))
  {
    ReviewGoesOn(s, schedule, rk, task, WritingReview(v, to));
    SaysHere(AfterReviewCall(s, schedule, rk), Tail(schedule), rk, v, to);
  }

  /* ---------- the decision ---------- */

  lemma DecisionIsUpdate(m: System, rk: Key, v: Review, jr: JobRequest, outcome: Outcome)
    requires Inv(m) && HoldsReview(m.store, rk, Committing(v, jr))
    ensures Updated(m.store, outcome, ReviewEffect(m, rk, Committing(v, jr), outcome).store, Key(rk.namespace, v.requestName), jr,
                    RequestStatus(jr.status.jobName, if v.decision == Approve then Approved else Rejected, rk.name))
  {
    var k := Key(rk.namespace, v.requestName);
    if outcome != Fails && Fresh(m.store, k, jr) {
      DecisionIsTransition(m, rk, v, jr);
      PutIsUpdate(m, k, jr, DecidedStatus(rk, v, jr), Some(Decider(rk, v)), outcome);
    } else {
      assert ReviewEffect(m, rk, Committing(v, jr), outcome) == m;
    }
  }

  lemma FromCommitting(s: System, schedule: seq<Turn>, rk: Key, v: Review, jr: JobRequest)
    requires Inv(s) && ForeignToReview(schedule, rk) && Stored(s.reviewTasks, rk) == Some(Committing(v, jr))
    ensures DecisionEnds(s, schedule, rk, v, jr, GoOnReview(s, schedule, rk))
  {
    OwnReviewCall(s, schedule, rk, Committing(v, jr));
    DecisionIsUpdate(Met(s, schedule), rk, v, jr, Head(schedule).outcome);
    ThenSays(s, schedule, rk, v, Committing(v, jr), v.decision.AsReviewState());
  }

  /* ---------- from the beginning ---------- */

  /** What a review makes of the request it finds. */
  lemma FoundExactly(rk: Key, v: Review, jr: JobRequest)
    requires NamesSomebody(v.reviewedBy)
    ensures AfterRequest(rk, v, jr) ==
              match jr.status.state
              case Unset => None
              case Unlisted(_) => None
              case Malformed => Some(WritingReview(v, ReviewMalformed))
              case Conflicted => Some(WritingReview(v, ReviewConflict))
              case Pending =>
                Some(if !NamesSomebody(jr.requestedBy) then WritingReview(v, ReviewMalformed)
                     else if !TwoUsers(jr.requestedBy, v.reviewedBy) then WritingReview(v, ReviewConflict)
                     else Committing(v, jr))
              case _ => if jr.status.reviewName == rk.name then None else Some(WritingReview(v, ReviewConflict))
  {
    IdentityExactly(jr.requestedBy);
    IdentityExactly(v.reviewedBy);
    DifferentExactly(jr.requestedBy, v.reviewedBy);
  }

  /** What it makes of the answer to its look-up of the request of its namespace and the name it gives. */
  lemma LookUpExactly(st: Store, rk: Key, v: Review, outcome: Outcome)
    ensures var k := Key(rk.namespace, v.requestName);
            ReviewNext(st, rk, FindingRequest(v), outcome) ==
              if outcome != Ok then None
              else if k !in st.requests then Some(WritingReview(v, ReviewNotFound))
              else AfterRequest(rk, v, st.requests[k])
  {
  }

  lemma FromFinding(s: System, schedule: seq<Turn>, rk: Key, v: Review)
    requires Inv(s) && ForeignToReview(schedule, rk) && Stored(s.reviewTasks, rk) == Some(FindingRequest(v))
    requires NamesSomebody(v.reviewedBy)
    ensures LookUpEnds(s, schedule, rk, v, GoOnReview(s, schedule, rk))
  {
    var st, k, task := Met(s, schedule).store, Key(rk.namespace, v.requestName), FindingRequest(v);
    LookUpExactly(st, rk, v, Head(schedule).outcome);
    if Head(schedule).outcome != Ok {
      ReviewStopsHere(s, schedule, rk, task);
    } else if k !in st.requests {
      ThenSays(s, schedule, rk, v, task, ReviewNotFound);
    } else {
      FoundExactly(rk, v, st.requests[k]);
      var next := AfterRequest(rk, v, st.requests[k]);
      if next.None? {
        ReviewStopsHere(s, schedule, rk, task);
      } else if next.value.Committing? {
        ReviewGoesOn(s, schedule, rk, task, next.value);
        FromCommitting(AfterReviewCall(s, schedule, rk), Tail(schedule), rk, v, st.requests[k]);
      } else {
        ThenSays(s, schedule, rk, v, task, next.value.to);
      }
    }
  }

  /** What the form served turns out to be once its age is known. */
  lemma ServedExactly(st: Store, rk: Key, v: Review, outcome: Outcome)
    ensures ReviewNext(st, rk, FetchedReview(v), outcome) ==
              if st.clock - v.created >= st.ttl then Some(DeletingReview(v))
              else if v.state != Undecided then None
              else if !NamesSomebody(v.reviewedBy) then Some(WritingReview(v, ReviewMalformed))
              else Some(FindingRequest(v))
  {
    IdentityExactly(v.reviewedBy);
  }

  lemma FromServed(s: System, schedule: seq<Turn>, rk: Key, v: Review)
    requires Inv(s) && ForeignToReview(schedule, rk) && Stored(s.reviewTasks, rk) == Some(FetchedReview(v))
    ensures ServedEnds(s, schedule, rk, v, GoOnReview(s, schedule, rk))
  {
    var st, task := Met(s, schedule).store, FetchedReview(v);
    ServedExactly(st, rk, v, Head(schedule).outcome);
    if st.clock - v.created >= st.ttl {
      ReviewGoesOn(s, schedule, rk, task, DeletingReview(v));
      ReviewRemovesHere(AfterReviewCall(s, schedule, rk), Tail(schedule), rk, v);
    } else if v.state != Undecided {
      ReviewStopsHere(s, schedule, rk, task);
    } else if !NamesSomebody(v.reviewedBy) {
      ThenSays(s, schedule, rk, v, task, ReviewMalformed);
    } else {
      ReviewGoesOn(s, schedule, rk, task, FindingRequest(v));
      FromFinding(AfterReviewCall(s, schedule, rk), Tail(schedule), rk, v);
    }
  }

  lemma ReviewBegins(s: System, schedule: seq<Turn>, rk: Key, cached: Option<Review>)
    requires Inv(s) && ForeignToReview(schedule, rk) && IdleReview(s, rk)
    ensures var m := Met(s, schedule);
            var s' := Step(m, StartReview(rk, cached));
            && Inv(s') && ForeignToReview(Tail(schedule), rk)
            && if cached.Some? && rk in m.store.seen && cached.value in m.store.seen[rk]
               then Stored(s'.reviewTasks, rk) == Some(FetchedReview(cached.value))
               else s' == m && IdleReview(m, rk)
  {
    MeetingKeepsReviewTask(s, schedule, rk);
    RunKeepsInv(s, Head(schedule).others);
    StepKeepsInv(Met(s, schedule), StartReview(rk, cached));
  }

  /** Every review reconcile ends so, whatever the cache serves, whatever others do between its calls and
      however these end. */
  lemma ScheduledReviewEnds(s: System, schedule: seq<Turn>, rk: Key, cached: Option<Review>)
    requires Inv(s) && ForeignToReview(schedule, rk) && IdleReview(s, rk)
    ensures ReviewEnds(s, schedule, rk, cached, ScheduledReview(s, schedule, rk, cached))
  {
    var m := Met(s, schedule);
    ReviewBegins(s, schedule, rk, cached);
    if cached.Some? && rk in m.store.seen && cached.value in m.store.seen[rk] {
      FromServed(Step(m, StartReview(rk, cached)), Tail(schedule), rk, cached.value);
    } else {
      ReviewIsOver(m, Tail(schedule), rk);
    }
  }

  /** From every state that meets the invariant of runs. */
  lemma ReviewReconcileOnCourse(s: System, schedule: seq<Turn>, rk: Key, cached: Option<Review>)
    requires ForeignToReview(schedule, rk) && IdleReview(s, rk)
    ensures Inv(s) ==> ReviewEnds(s, schedule, rk, cached, ScheduledReview(s, schedule, rk, cached))
  {
    if Inv(s) {
      ScheduledReviewEnds(s, schedule, rk, cached);
    }
  }
}
