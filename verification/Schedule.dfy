/** One reconcile from its first call to its last, while everybody else takes any steps between
    the calls. A schedule says, for each call, what the others do before it and how it ends. */
module Schedule {
  import opened Api
  import opened Protocol
  import opened Invariant
  import opened Sequential

  datatype Turn = Turn(others: seq<Action>, outcome: Outcome)

  /** The next turn; after the end of the schedule nobody interferes and calls succeed. */
  function Head(schedule: seq<Turn>): Turn {
    if schedule == [] then Turn([], Ok) else schedule[0]
  }

  function Tail(schedule: seq<Turn>): seq<Turn> {
    if schedule == [] then [] else schedule[1..]
  }

  /** The system once the others have had their turn. */
  function Met(s: System, schedule: seq<Turn>): System {
    Run(s, Head(schedule).others)
  }

  predicate OwnRequest(a: Action, k: Key) {
    (a.StartRequest? || a.StepRequest? || a.StopRequest?) && a.key == k
  }

  /** No other reconcile of the same request: the queue hands out a key once at a time. */
  predicate Foreign(schedule: seq<Turn>, k: Key) {
    forall t | t in schedule :: ForeignActions(t.others, k)
  }

  predicate ForeignActions(actions: seq<Action>, k: Key) {
    forall a | a in actions :: !OwnRequest(a, k)
  }

  lemma OthersKeepTask(s: System, a: Action, k: Key)
    requires !OwnRequest(a, k)
    ensures Stored(Step(s, a).requestTasks, k) == Stored(s.requestTasks, k)
  {
    if a.StepRequest? && a.key in s.requestTasks {
      RequestEffectLocal(s, a.key, s.requestTasks[a.key], a.outcome);
    } else if a.StepReview? && a.key in s.reviewTasks {
      ReviewEffectLocal(s, a.key, s.reviewTasks[a.key], a.outcome);
    }
  }

  lemma {:induction false} RunKeepsTask(s: System, actions: seq<Action>, k: Key)
    requires ForeignActions(actions, k)
    ensures Stored(Run(s, actions).requestTasks, k) == Stored(s.requestTasks, k)
    decreases |actions|
  {
    if actions != [] {
      var prefix := actions[..|actions| - 1];
      assert forall a | a in prefix :: a in actions;
      RunKeepsTask(s, prefix, k);
      OthersKeepTask(Run(s, prefix), actions[|actions| - 1], k);
    }
  }

  lemma {:induction false} RunKeepsTtl(s: System, actions: seq<Action>)
    ensures Run(s, actions).store.ttl == s.store.ttl
    decreases |actions|
  {
    if actions != [] {
      RunKeepsTtl(s, actions[..|actions| - 1]);
      StepTime(Run(s, actions[..|actions| - 1]), actions[|actions| - 1]);
    }
  }

  lemma MeetingKeepsTask(s: System, schedule: seq<Turn>, k: Key)
    requires Foreign(schedule, k)
    ensures Stored(Met(s, schedule).requestTasks, k) == Stored(s.requestTasks, k)
    ensures Met(s, schedule).store.ttl == s.store.ttl
  {
    assert ForeignActions(Head(schedule).others, k);
    RunKeepsTask(s, Head(schedule).others, k);
    RunKeepsTtl(s, Head(schedule).others);
  }

  /** The reconcile of `k` in flight goes on, on schedule, until it is over. */
  function GoOn(s: System, schedule: seq<Turn>, k: Key): System
    requires Foreign(schedule, k)
    decreases if k in s.requestTasks then Phase(s.requestTasks[k]) else 0,
              if k in s.requestTasks then WritesLeft(s.requestTasks[k]) else 0
  {
    if k !in s.requestTasks then s
    else
      MeetingKeepsTask(s, schedule, k);
      assert k in Met(s, schedule).requestTasks && Met(s, schedule).requestTasks[k] == s.requestTasks[k];
      GoOn(Step(Met(s, schedule), StepRequest(k, Head(schedule).outcome)), Tail(schedule), k)
  }

  /** A whole reconcile on schedule. */
  function Scheduled(s: System, schedule: seq<Turn>, k: Key): System
    requires Foreign(schedule, k)
  {
    GoOn(Step(Met(s, schedule), StartRequest(k, Head(schedule).outcome)), Tail(schedule), k)
  }

  /* ---------- the same for a review reconcile ---------- */

  predicate OwnReview(a: Action, rk: Key) {
    (a.StartReview? || a.StepReview? || a.StopReview?) && a.key == rk
  }

  predicate ForeignToReview(schedule: seq<Turn>, rk: Key) {
    forall t | t in schedule :: forall a | a in t.others :: !OwnReview(a, rk)
  }

  lemma OthersKeepReviewTask(s: System, a: Action, rk: Key)
    requires !OwnReview(a, rk)
    ensures Stored(Step(s, a).reviewTasks, rk) == Stored(s.reviewTasks, rk)
  {
    if a.StepRequest? && a.key in s.requestTasks {
      RequestEffectLocal(s, a.key, s.requestTasks[a.key], a.outcome);
    } else if a.StepReview? && a.key in s.reviewTasks {
      ReviewEffectLocal(s, a.key, s.reviewTasks[a.key], a.outcome);
    }
  }

  lemma {:induction false} RunKeepsReviewTask(s: System, actions: seq<Action>, rk: Key)
    requires forall a | a in actions :: !OwnReview(a, rk)
    ensures Stored(Run(s, actions).reviewTasks, rk) == Stored(s.reviewTasks, rk)
    decreases |actions|
  {
    if actions != [] {
      var prefix := actions[..|actions| - 1];
      assert forall a | a in prefix :: a in actions;
      RunKeepsReviewTask(s, prefix, rk);
      OthersKeepReviewTask(Run(s, prefix), actions[|actions| - 1], rk);
    }
  }

  lemma MeetingKeepsReviewTask(s: System, schedule: seq<Turn>, rk: Key)
    requires ForeignToReview(schedule, rk)
    ensures Stored(Met(s, schedule).reviewTasks, rk) == Stored(s.reviewTasks, rk)
    ensures Met(s, schedule).store.ttl == s.store.ttl
  {
    RunKeepsReviewTask(s, Head(schedule).others, rk);
    RunKeepsTtl(s, Head(schedule).others);
  }

  function GoOnReview(s: System, schedule: seq<Turn>, rk: Key): System
    requires ForeignToReview(schedule, rk)
    decreases if rk in s.reviewTasks then ReviewPhase(s.reviewTasks[rk]) else 0
  {
    if rk !in s.reviewTasks then s
    else
      MeetingKeepsReviewTask(s, schedule, rk);
      assert rk in Met(s, schedule).reviewTasks && Met(s, schedule).reviewTasks[rk] == s.reviewTasks[rk];
      GoOnReview(Step(Met(s, schedule), StepReview(rk, Head(schedule).outcome)), Tail(schedule), rk)
  }

  /** A whole review reconcile on schedule, beginning with the form the cache serves. */
  function ScheduledReview(s: System, schedule: seq<Turn>, rk: Key, cached: Option<Review>): System
    requires ForeignToReview(schedule, rk)
  {
    GoOnReview(Step(Met(s, schedule), StartReview(rk, cached)), Tail(schedule), rk)
  }

  /* ---------- a schedule is an interleaving ---------- */

  lemma {:induction false} RunOn(s: System, a: seq<Action>, b: seq<Action>)
    ensures Run(s, a + b) == Run(Run(s, a), b)
    decreases |b|
  {
    if b == [] {
      assert a + b == a;
    } else {
      assert (a + b)[..|a + b| - 1] == a + b[..|b| - 1];
      RunOn(s, a, b[..|b| - 1]);
    }
  }

  lemma RunOne(s: System, a: Action)
    ensures Run(s, [a]) == Step(s, a)
  {
    assert Run(s, [a][..0]) == s;
  }

  /** The turn of the others and the own step after it, as actions. */
  lemma TurnIsRun(s: System, schedule: seq<Turn>, a: Action)
    ensures Run(s, Head(schedule).others + [a]) == Step(Met(s, schedule), a)
  {
    RunOn(s, Head(schedule).others, [a]);
    RunOne(Met(s, schedule), a);
  }

  lemma {:induction false} GoOnIsRun(s: System, schedule: seq<Turn>, k: Key) returns (actions: seq<Action>)
    requires Foreign(schedule, k)
    ensures Run(s, actions) == GoOn(s, schedule, k)
    decreases if k in s.requestTasks then Phase(s.requestTasks[k]) else 0,
              if k in s.requestTasks then WritesLeft(s.requestTasks[k]) else 0
  {
    if k !in s.requestTasks {
      actions := [];
    } else {
      var a := StepRequest(k, Head(schedule).outcome);
      MeetingKeepsTask(s, schedule, k);
      assert k in Met(s, schedule).requestTasks && Met(s, schedule).requestTasks[k] == s.requestTasks[k];
      TurnIsRun(s, schedule, a);
      var rest := GoOnIsRun(Step(Met(s, schedule), a), Tail(schedule), k);
      actions := (Head(schedule).others + [a]) + rest;
      RunOn(s, Head(schedule).others + [a], rest);
    }
  }

  /** A reconcile on any schedule is part of a run, so what holds of every run holds of it. */
  lemma ScheduledIsRun(s: System, schedule: seq<Turn>, k: Key) returns (actions: seq<Action>)
    requires Foreign(schedule, k)
    ensures Run(s, actions) == Scheduled(s, schedule, k)
  {
    var a := StartRequest(k, Head(schedule).outcome);
    TurnIsRun(s, schedule, a);
    var rest := GoOnIsRun(Step(Met(s, schedule), a), Tail(schedule), k);
    actions := (Head(schedule).others + [a]) + rest;
    RunOn(s, Head(schedule).others + [a], rest);
  }

  lemma {:induction false} GoOnReviewIsRun(s: System, schedule: seq<Turn>, rk: Key) returns (actions: seq<Action>)
    requires ForeignToReview(schedule, rk)
    ensures Run(s, actions) == GoOnReview(s, schedule, rk)
    decreases if rk in s.reviewTasks then ReviewPhase(s.reviewTasks[rk]) else 0
  {
    if rk !in s.reviewTasks {
      actions := [];
    } else {
      var a := StepReview(rk, Head(schedule).outcome);
      MeetingKeepsReviewTask(s, schedule, rk);
      assert rk in Met(s, schedule).reviewTasks && Met(s, schedule).reviewTasks[rk] == s.reviewTasks[rk];
      TurnIsRun(s, schedule, a);
      var rest := GoOnReviewIsRun(Step(Met(s, schedule), a), Tail(schedule), rk);
      actions := (Head(schedule).others + [a]) + rest;
      RunOn(s, Head(schedule).others + [a], rest);
    }
  }

  lemma ScheduledReviewIsRun(s: System, schedule: seq<Turn>, rk: Key, cached: Option<Review>) returns (actions: seq<Action>)
    requires ForeignToReview(schedule, rk)
    ensures Run(s, actions) == ScheduledReview(s, schedule, rk, cached)
  {
    var a := StartReview(rk, cached);
    TurnIsRun(s, schedule, a);
    var rest := GoOnReviewIsRun(Step(Met(s, schedule), a), Tail(schedule), rk);
    actions := (Head(schedule).others + [a]) + rest;
    RunOn(s, Head(schedule).others + [a], rest);
  }

  /** With nobody else about, a reconcile on schedule is the undisturbed one, and so the big step. */
  lemma {:induction false} GoOnAlone(s: System, k: Key)
    ensures GoOn(s, [], k) == FinishRequest(s, k)
    decreases if k in s.requestTasks then Phase(s.requestTasks[k]) else 0,
              if k in s.requestTasks then WritesLeft(s.requestTasks[k]) else 0
  {
    if k in s.requestTasks {
      assert Met(s, []) == s;
      GoOnAlone(Step(s, StepRequest(k, Ok)), k);
    }
  }

  lemma AloneIsBigStep(s: System, k: Key)
    requires Idle(s, k)
    ensures Scheduled(s, [], k) == BigStep(s, k)
  {
    assert Met(s, []) == s;
    GoOnAlone(Step(s, StartRequest(k, Ok)), k);
    WholeIsBigStep(s, k);
  }

  lemma {:induction false} GoOnReviewAlone(s: System, rk: Key)
    ensures GoOnReview(s, [], rk) == FinishReview(s, rk)
    decreases if rk in s.reviewTasks then ReviewPhase(s.reviewTasks[rk]) else 0
  {
    if rk in s.reviewTasks {
      assert Met(s, []) == s;
      GoOnReviewAlone(Step(s, StepReview(rk, Ok)), rk);
    }
  }

  lemma AloneIsBigReview(s: System, rk: Key)
    requires IdleReview(s, rk) && Cached(s.store, rk)
    ensures ScheduledReview(s, [], rk, Stored(s.store.reviews, rk)) == BigReview(s, rk)
  {
    assert Met(s, []) == s;
    GoOnReviewAlone(Step(s, StartReview(rk, Stored(s.store.reviews, rk))), rk);
    WholeIsBigReview(s, rk);
  }

  /** A reconcile on any schedule keeps what every run keeps. */
  lemma ScheduledKeepsInv(s: System, schedule: seq<Turn>, k: Key)
    requires Foreign(schedule, k)
    ensures Inv(s) ==> Inv(Scheduled(s, schedule, k))
  {
    var actions := ScheduledIsRun(s, schedule, k);
    if Inv(s) {
      RunKeepsInv(s, actions);
    }
  }

  lemma ScheduledReviewKeepsInv(s: System, schedule: seq<Turn>, rk: Key, cached: Option<Review>)
    requires ForeignToReview(schedule, rk)
    ensures Inv(s) ==> Inv(ScheduledReview(s, schedule, rk, cached))
  {
    var actions := ScheduledReviewIsRun(s, schedule, rk, cached);
    if Inv(s) {
      RunKeepsInv(s, actions);
    }
  }
}
