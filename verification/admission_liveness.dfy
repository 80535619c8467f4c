/** Abandoned reservations go, and no state locks a tenant out. */
module AdmissionLiveness {
  import opened Basics
  import opened SortedSet
  import opened LeaseIndex
  import opened Budgets
  import opened Admission
  import opened AdmissionLedger
  import opened AdmissionBounds
  import opened AdmissionTiming

  // ----- Sweep liveness -----

  /** A due lease that misses the batch comes after everything in it. */
  lemma {:induction false} BatchComesFirst(leases: map<Id, int>, now: int, n: nat, id: Id, k: Id)
    requires id in leases && leases[id] <= now && id !in Due(leases, now, n)
    requires k in Due(leases, now, n)
    ensures k in leases && Before(leases, k, id)
    decreases n
  {
    var due := DueSet(leases, now);
    assert id in due;
    var m := First(leases, due);
    if k != m {
      BatchComesFirst(leases - {m}, now, n - 1, id, k);
    }
  }

  function BeforeSet(leases: map<Id, int>, id: Id): set<Id>
    requires id in leases
  {
    set k | k in leases && Before(leases, k, id)
  }

  /** One sweep either takes the lease or takes a whole batch from in front of it. */
  lemma SweepAdvances(leases: map<Id, int>, now: int, id: Id)
    requires id in leases && leases[id] <= now
    ensures id !in Due(leases, now, RECLAIM_BATCH) ==>
      && id in leases - Elems(Due(leases, now, RECLAIM_BATCH))
      && Rank(leases - Elems(Due(leases, now, RECLAIM_BATCH)), id) + RECLAIM_BATCH == Rank(leases, id)
  {
    var ids := Due(leases, now, RECLAIM_BATCH);
    if id !in ids {
      var rest := leases - Elems(ids);
      forall k | k in ids ensures k in BeforeSet(leases, id) {
        BatchComesFirst(leases, now, RECLAIM_BATCH, id, k);
      }
      assert BeforeSet(rest, id) == BeforeSet(leases, id) - Elems(ids);
      assert Elems(ids) <= BeforeSet(leases, id);
      ElemsCount(ids);
      DueCount(leases, now, RECLAIM_BATCH);
      DueByRank(leases, now, RECLAIM_BATCH, id);
      assert BeforeSet(leases, id) <= DueSet(leases, now);
      SubsetSize(BeforeSet(leases, id), DueSet(leases, now));
    }
  }

  /** A lease added later sorts later. */
  lemma LaterLeaseSortsLater(leases: map<Id, int>, id: Id, other: Id, expiry: int)
    requires id in leases && other !in leases && leases[id] < expiry
    ensures Rank(leases[other := expiry], id) == Rank(leases, id)
  {
    assert BeforeSet(leases[other := expiry], id) == BeforeSet(leases, id);
  }

  lemma FewerLeases(leases: map<Id, int>, rest: map<Id, int>, id: Id)
    requires id in rest && rest.Keys <= leases.Keys && (forall k :: k in rest ==> rest[k] == leases[k])
    ensures Rank(rest, id) <= Rank(leases, id)
  {
    SubsetSize(BeforeSet(rest, id), BeforeSet(leases, id));
  }

  lemma ReserveLeases(p: Policy, s: Db, e: Event)
    requires e.Reserve?
    ensures Step(p, s, e).1.ReserveReply?
    ensures var rest := s.leases - Elems(Due(s.leases, e.now, RECLAIM_BATCH));
      Step(p, s, e).0.leases == if Step(p, s, e).1.verdict.Admit? then rest[e.id := e.now + p.LeaseMs()] else rest
  {
    hide Step, VerdictOf, Refill, HeldBy, Due;
    ReserveShape(p, s, e);
  }

  lemma ReserveRank(p: Policy, s: Db, e: Event, id: Id)
    requires e.Reserve? && e.id !in s.leases && id in s.leases && s.leases[id] <= e.now
    ensures var t := Step(p, s, e).0;
      id in t.leases ==> t.leases[id] == s.leases[id] && Rank(t.leases, id) + RECLAIM_BATCH <= Rank(s.leases, id)
  {
    hide Step, Due, Rank;
    var rest := s.leases - Elems(Due(s.leases, e.now, RECLAIM_BATCH));
    ReserveLeases(p, s, e);
    SweepAdvances(s.leases, e.now, id);
    if id in rest {
      LaterLeaseSortsLater(rest, id, e.id, e.now + p.LeaseMs());
    }
  }

  lemma StepRank(p: Policy, s: Db, e: Event, id: Id)
    requires id in s.leases && (e.Reserve? ==> e.id !in s.leases && s.leases[id] <= e.now)
    ensures var t := Step(p, s, e).0;
      id in t.leases ==>
        && t.leases[id] == s.leases[id]
        && Rank(t.leases, id) + (if e.Reserve? then RECLAIM_BATCH else 0) <= Rank(s.leases, id)
  {
    if e.Reserve? {
      ReserveRank(p, s, e, id);
    } else {
      hide Refill, Observe, Rank;
      if id in Step(p, s, e).0.leases {
        FewerLeases(s.leases, Step(p, s, e).0.leases, id);
      }
    }
  }

  lemma StepStaysGone(p: Policy, s: Db, e: Event, id: Id)
    requires id !in s.leases && (e.Reserve? ==> e.id != id)
    ensures id !in Step(p, s, e).0.leases
  {
    hide Decide, PredictedWait, Refill, HeldBy, Observe;
  }

  function ReserveCount(es: seq<Event>): nat {
    if es == [] then 0 else (if es[0].Reserve? then 1 else 0) + ReserveCount(es[1..])
  }

  /** Every reserve of the run comes at or after `from`. */
  predicate ReservesFrom(from: int, es: seq<Event>) {
    es != [] ==> (es[0].Reserve? ==> from <= es[0].now) && ReservesFrom(from, es[1..])
  }

  lemma {:induction false} StaysGone(p: Policy, s: Db, used: set<Id>, es: seq<Event>, id: Id)
    requires Known(s, used) && FreshIds(used, es) && id in used && id !in s.leases
    ensures id !in Run(p, s, es).leases
    decreases |es|
  {
    hide Step;
    if es != [] {
      StepStaysGone(p, s, es[0], id);
      StepKnown(p, s, used, es[0]);
      StaysGone(p, Step(p, s, es[0]).0, used + Named(es[0]), es[1..], id);
    }
  }

  /** As long as the lease survives, every admission call has moved it a batch forward. */
  lemma {:induction false} RankFalls(p: Policy, s: Db, used: set<Id>, es: seq<Event>, id: Id)
    requires Known(s, used) && FreshIds(used, es)
    requires id in s.leases && ReservesFrom(s.leases[id], es)
    ensures id in Run(p, s, es).leases ==> ReserveCount(es) * 32 <= Rank(s.leases, id)
    decreases |es|
  {
    hide Step, Rank;
    if es != [] {
      var next := Step(p, s, es[0]).0;
      StepRank(p, s, es[0], id);
      StepKnown(p, s, used, es[0]);
      if id in next.leases {
        RankFalls(p, next, used + Named(es[0]), es[1..], id);
      } else {
        StaysGone(p, next, used + Named(es[0]), es[1..], id);
      }
    }
  }

  /**
   * Sweep liveness: an abandoned reservation with k leases in front of it is
   * gone after ceil((k + 1) / 32) admission calls past its expiry, whatever
   * else happens and however many leases are added meanwhile.
   */
  lemma AbandonedIsSwept(p: Policy, s: Db, used: set<Id>, es: seq<Event>, id: Id)
    requires Known(s, used) && FreshIds(used, es)
    requires id in s.leases && ReservesFrom(s.leases[id], es)
    requires CeilDiv(Rank(s.leases, id) + 1, 32) <= ReserveCount(es)
    ensures id !in Run(p, s, es).leases
  {
    RankFalls(p, s, used, es, id);
  }

  // ----- No lockout -----

  /** Repeated attempts at one size of request, and no other traffic. */
  predicate Attempts(p: Policy, s: Db, from: int, es: seq<Event>, hold: nat)
    decreases |es|
  {
    es != [] ==>
      var e := es[0];
      && (e.Reserve? ==> from <= e.now && Holding(p, e) == hold)
      && (e.Commit? ==> e.id in s.settled)
      && Attempts(p, Step(p, s, e).0, if e.Reserve? then e.now else from, es[1..], hold)
  }

  /** Everything a refused tenant waits for has happened by `at`. */
  ghost predicate Recovered(p: Policy, s: Db, at: int, hold: nat) {
    && (forall id :: id in s.leases ==> s.leases[id] <= at)
    && (s.tpm.Some? ==> s.tpm.value.ts <= at) && (s.rpm.Some? ==> s.rpm.value.ts <= at)
    && hold <= p.tokensPerMinute
    && hold * GRAIN <= Refill(s.tpm, at, p.tokensPerMinute, p.TokenCap())
    && GRAIN <= Refill(s.rpm, at, p.requestsPerMinute, p.RequestCap())
  }

  lemma RefillGrows(b: Option<Bucket>, mid: int, at: int, rate: nat, cap: int)
    requires mid <= at && (b.Some? ==> b.value.ts <= mid)
    ensures Refill(b, mid, rate, cap) <= Refill(b, at, rate, cap)
  {
    if b.Some? {
      RefillTwice(b.value, mid, at, rate, cap);
    }
  }

  lemma RecoveredLater(p: Policy, s: Db, at: int, later: int, hold: nat)
    requires Recovered(p, s, at, hold) && at <= later
    ensures Recovered(p, s, later, hold)
  {
    RefillGrows(s.tpm, at, later, p.tokensPerMinute, p.TokenCap());
    RefillGrows(s.rpm, at, later, p.requestsPerMinute, p.RequestCap());
  }

  /** An attempt that finds at most one batch of leases, all due, is admitted, with or without a deadline. */
  lemma LastAttemptAdmitted(p: Policy, s: Db, e: Event)
    requires e.Reserve? && Recovered(p, s, e.now, Holding(p, e)) && |s.leases| <= RECLAIM_BATCH
    ensures Step(p, s, e).1.verdict.Admit?
  {
    hide Step, Due, HeldBy, CeilDiv, Ceil, Refill;
    assert DueSet(s.leases, e.now) == s.leases.Keys;
    SweepCount(s.leases, e.now, RECLAIM_BATCH);
    RefillRange(s.tpm, e.now, p.tokensPerMinute, p.TokenCap());
    ReserveShape(p, s, e);
    assert |Prepare(p, s, e.now).leases| == 0;
  }

  /** An attempt that is shed has swept one batch and lost nothing. */
  lemma ShedAttempt(p: Policy, s: Db, e: Event)
    requires e.Reserve? && Recovered(p, s, e.now, Holding(p, e)) && RECLAIM_BATCH < |s.leases|
    requires !Step(p, s, e).1.verdict.Admit?
    ensures |Step(p, s, e).0.leases| == |s.leases| - RECLAIM_BATCH
    ensures Recovered(p, Step(p, s, e).0, e.now, Holding(p, e))
  {
    hide Step, HeldBy, Due, VerdictOf, Refill;
    var t := Step(p, s, e).0;
    assert DueSet(s.leases, e.now) == s.leases.Keys;
    SweepCount(s.leases, e.now, RECLAIM_BATCH);
    PollBucket(p, s, e);
    MulMonotone(Holding(p, e), p.tokensPerMinute, GRAIN);
    RefillAtMost(s.rpm, e.now, p.requestsPerMinute, p.RequestCap());
    WrittenReadable(t.tpm.value.bal, e.now, p.tokensPerMinute, p.TokenCap());
    WrittenReadable(t.rpm.value.bal, e.now, p.requestsPerMinute, p.RequestCap());
    ReserveShape(p, s, e);
  }

  lemma IdleStep(p: Policy, s: Db, e: Event, at: int, hold: nat)
    requires Recovered(p, s, at, hold) && !e.Reserve? && (e.Commit? ==> e.id in s.settled)
    ensures Recovered(p, Step(p, s, e).0, at, hold)
    ensures |Step(p, s, e).0.leases| <= |s.leases|
  {
    MulMonotone(hold, p.tokensPerMinute, GRAIN);
    MulMonotone(1, p.requestsPerMinute, GRAIN);
  }

  ghost predicate SomeAdmitted(p: Policy, s: Db, es: seq<Event>) {
    exists i :: 0 <= i < |es| && es[i].Reserve? && Replies(p, s, es)[i].ReserveReply? && Replies(p, s, es)[i].verdict.Admit?
  }

  lemma AdmittedInTail(p: Policy, s: Db, es: seq<Event>)
    requires es != [] && SomeAdmitted(p, Step(p, s, es[0]).0, es[1..])
    ensures SomeAdmitted(p, s, es)
  {
    hide Step;
    var (next, r) := Step(p, s, es[0]);
    var i :| 0 <= i < |es[1..]| && es[1..][i].Reserve?
      && Replies(p, next, es[1..])[i].ReserveReply? && Replies(p, next, es[1..])[i].verdict.Admit?;
    assert Replies(p, s, es) == [r] + Replies(p, next, es[1..]);
    assert es[i + 1] == es[1..][i] && Replies(p, s, es)[i + 1] == Replies(p, next, es[1..])[i];
  }

  lemma AdmittedAtHead(p: Policy, s: Db, es: seq<Event>)
    requires es != [] && es[0].Reserve? && Step(p, s, es[0]).1.verdict.Admit?
    ensures SomeAdmitted(p, s, es)
  {
    hide Decide, PredictedWait, Refill, HeldBy, Due;
    assert Replies(p, s, es)[0] == Step(p, s, es[0]).1;
  }

  /**
   * No lockout. In any state, with any debt and any n leases outstanding, once
   * every lease has expired and both budgets have refilled enough for the
   * request, repeated attempts without other traffic are admitted by attempt
   * max(1, ceil(n / 32)) at the latest.
   */
  lemma {:induction false} NoLockout(p: Policy, s: Db, from: int, es: seq<Event>, hold: nat)
    requires Recovered(p, s, from, hold) && Attempts(p, s, from, es, hold)
    requires Max(1, CeilDiv(|s.leases|, 32)) <= ReserveCount(es)
    ensures SomeAdmitted(p, s, es)
    decreases |es|
  {
    hide Step, Recovered, SomeAdmitted;
    var e, next := es[0], Step(p, s, es[0]).0;
    if e.Reserve? {
      ReserveLeases(p, s, e);
    }
    if !e.Reserve? {
      IdleStep(p, s, e, from, hold);
      NoLockout(p, next, from, es[1..], hold);
      AdmittedInTail(p, s, es);
    } else if Step(p, s, e).1.verdict.Admit? {
      AdmittedAtHead(p, s, es);
    } else {
      RecoveredLater(p, s, from, e.now, hold);
      if |s.leases| <= RECLAIM_BATCH {
        LastAttemptAdmitted(p, s, e);
      } else {
        ShedAttempt(p, s, e);
        NoLockout(p, next, e.now, es[1..], hold);
        AdmittedInTail(p, s, es);
      }
    }
  }
}
