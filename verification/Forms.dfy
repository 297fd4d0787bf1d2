/** The forms a review goes through, and what the stored one says of the others. */
module Forms {
  import opened Api
  import opened Protocol
  import opened History
  import opened Invariant

  /** The stored form is the newest of its name, an undecided one is the first of its incarnation,
      and every form since then is of that incarnation. */
  predicate Newest(r: Review, rev: nat, forms: set<Review>) {
    && r.version == rev
    && (r.state == Undecided ==> r.version == r.uid)
    && forall v | v in forms && r.uid <= v.version :: v.uid == r.uid
  }

  predicate FormsInOrder(reviews: map<Key, Review>, revs: map<Key, nat>, seen: map<Key, set<Review>>) {
    forall rk | rk in reviews :: Newest(reviews[rk], Rev(revs, rk), SeenOf(seen, rk))
  }

  predicate Ordered(st: Store) {
    FormsInOrder(st.reviews, st.reviewRev, st.seen)
  }

  /** A new form is stored: the next of the incarnation there, or the first of a new one. */
  lemma OrderedPut(st: Store, rk: Key, rv: Review)
    requires Ordered(st) && rv.version == Rev(st.reviewRev, rk) + 1
    requires rv.state == Undecided ==> rv.uid == rv.version
    requires if rk in st.reviews && st.reviews[rk].uid == rv.uid then true
             else rv.uid == rv.version && forall v | v in SeenOf(st.seen, rk) :: v.version < rv.uid
    ensures Ordered(StoreReview(st, rk, rv))
  {
    var st' := StoreReview(st, rk, rv);
    assert SeenOf(st'.seen, rk) == SeenOf(st.seen, rk) + {rv};
    forall x | x in st'.reviews ensures Newest(st'.reviews[x], Rev(st'.reviewRev, x), SeenOf(st'.seen, x)) {
      if x == rk && rk in st.reviews {
        assert Newest(st.reviews[rk], Rev(st.reviewRev, rk), SeenOf(st.seen, rk));
      } else if x != rk {
        assert Newest(st.reviews[x], Rev(st.reviewRev, x), SeenOf(st.seen, x));
      }
    }
  }

  /** Every form seen carries a version already drawn. */
  lemma SeenIsDrawn(st: Store, log: seq<Event>, rk: Key, v: Review)
    requires ReviewLedger(st.reviews, st.reviewRev, st.seen, log) && v in SeenOf(st.seen, rk)
    ensures v.uid <= v.version <= Rev(st.reviewRev, rk)
  {
    assert SeenForms(st.seen[rk], Rev(st.reviewRev, rk));
  }

  lemma VerdictOrdered(s: System, rk: Key, to: ReviewState)
    requires Ordered(s.store) && rk in s.store.reviews && to != Undecided
    ensures Ordered(PutReviewState(s, rk, to).store)
  {
    OrderedPut(s.store, rk, s.store.reviews[rk].(version := Rev(s.store.reviewRev, rk) + 1, state := to));
  }

  lemma AddReviewOrdered(s: System, rk: Key, reviewedBy: Option<string>, requestName: string, decision: Decision)
    requires Recorded(s) && Ordered(s.store)
    ensures Ordered(AddReview(s, rk, reviewedBy, requestName, decision).store)
  {
    if rk !in s.store.reviews {
      var n := Rev(s.store.reviewRev, rk) + 1;
      forall v | v in SeenOf(s.store.seen, rk) ensures v.version < n {
        SeenIsDrawn(s.store, s.log, rk, v);
      }
      OrderedPut(s.store, rk, Review(n, n, s.store.clock, reviewedBy, requestName, decision, Undecided));
    }
  }

  lemma ReviewEffectOrdered(s: System, rk: Key, task: ReviewTask, outcome: Outcome)
    requires HoldsReview(s.store, rk, task) && Ordered(s.store)
    ensures Ordered(ReviewEffect(s, rk, task, outcome).store)
  {
    if task.WritingReview? && rk in s.store.reviews {
      VerdictOrdered(s, rk, task.to);
    }
  }

  /** Every step of anybody keeps the forms in order. */
  lemma StepKeepsOrdered(s: System, a: Action)
    requires Inv(s) && Ordered(s.store)
    ensures Ordered(Step(s, a).store)
  {
    if a.StepRequest? && a.key in s.requestTasks {
      RequestEffectTime(s, a.key, s.requestTasks[a.key], a.outcome);
      RequestEffectRevs(s, a.key, s.requestTasks[a.key], a.outcome);
    } else if a.StepReview? && a.key in s.reviewTasks {
      ReviewEffectOrdered(s, a.key, s.reviewTasks[a.key], a.outcome);
    } else if a.CreateReview? {
      AddReviewOrdered(s, a.key, a.reviewedBy, a.requestName, a.decision);
    }
  }

  lemma RequestEffectRevs(s: System, k: Key, task: RequestTask, outcome: Outcome)
    ensures RequestEffect(s, k, task, outcome).store.reviewRev == s.store.reviewRev
  {
  }

  /** A form no older than the stored incarnation is of it, and was created when it was. */
  lemma LaterIsStored(st: Store, log: seq<Event>, rk: Key, v: Review)
    requires ReviewLedger(st.reviews, st.reviewRev, st.seen, log) && Ordered(st)
    requires rk in st.reviews && v in SeenOf(st.seen, rk) && st.reviews[rk].uid <= v.version
    ensures v.uid == st.reviews[rk].uid && SameReview(v, st.reviews[rk])
  {
    assert Newest(st.reviews[rk], Rev(st.reviewRev, rk), SeenOf(st.seen, rk));
    assert SeenForms(st.seen[rk], Rev(st.reviewRev, rk));
  }

  /** All forms of the stored incarnation of a review were created when it was. */
  lemma SameCreation(st: Store, log: seq<Event>, rk: Key, v: Review)
    requires ReviewLedger(st.reviews, st.reviewRev, st.seen, log)
    requires rk in st.reviews && v in SeenOf(st.seen, rk) && v.uid == st.reviews[rk].uid
    ensures SameReview(v, st.reviews[rk])
  {
    assert SeenForms(st.seen[rk], Rev(st.reviewRev, rk));
  }

  /** While a review is undecided no other form of it exists, so a cache has nothing else to serve. */
  lemma UndecidedIsOnlyForm(st: Store, log: seq<Event>, rk: Key, v: Review)
    requires ReviewLedger(st.reviews, st.reviewRev, st.seen, log) && Ordered(st)
    requires rk in st.reviews && st.reviews[rk].state == Undecided
    requires v in SeenOf(st.seen, rk) && v.uid == st.reviews[rk].uid
    ensures v == st.reviews[rk]
  {
    assert Newest(st.reviews[rk], Rev(st.reviewRev, rk), SeenOf(st.seen, rk));
    assert SeenForms(st.seen[rk], Rev(st.reviewRev, rk));
    assert st.reviews[rk] in st.seen[rk];
  }
}
