/** Each reservation is settled exactly once. */
module AdmissionSettlement {
  import opened Basics
  import opened LeaseIndex
  import opened Budgets
  import opened Estimator
  import opened Admission
  import opened AdmissionReads
  import opened AdmissionLedger
  import opened AdmissionBounds

  // ----- What one step does to one reservation, in tokens -----

  function Outstanding(s: Db, id: Id): nat {
    if id in s.holds then s.holds[id] else 0
  }

  /** The step hands the hold of `id` back, by a sweep or by its commit. */
  predicate Returns(s: Db, e: Event, id: Id) {
    && id in s.holds
    && match e
       case Reserve(now, _, _, _, _, _) => id in Due(s.leases, now, RECLAIM_BATCH)
       case Commit(_, cid, _, _, _) => cid == id && id !in s.settled
       case _ => false
  }

  /** What the step charges for the usage of `id`: a commit that its reply does not call a duplicate. */
  function Usage(p: Policy, s: Db, e: Event, id: Id): nat {
    if e.Commit? && e.id == id && !Step(p, s, e).1.status.DuplicateIgnored? then e.prompt + e.output else 0
  }

  /** What the step adds to the tenant's balance on account of `id`, before any clamp. */
  function Effect(p: Policy, s: Db, e: Event, id: Id): int {
    (if Returns(s, e, id) then s.holds[id] else 0)
    - (if e.Reserve? && e.id == id && Step(p, s, e).1.verdict.Admit? then Holding(p, e) else 0)
    - Usage(p, s, e, id)
  }

  /** A hold that goes because the whole lease table expired is handed back to nobody. */
  function Abandoned(s: Db, e: Event, id: Id): nat {
    if e.Tick? && s.holdsUntil <= s.clock + e.ms then Outstanding(s, id) else 0
  }

  // ----- Over a run -----

  function ReturnCount(p: Policy, s: Db, es: seq<Event>, id: Id): nat
    decreases |es|
  {
    if es == [] then 0
    else (if Returns(s, es[0], id) then 1 else 0) + ReturnCount(p, Step(p, s, es[0]).0, es[1..], id)
  }

  function TotalUsage(p: Policy, s: Db, es: seq<Event>, id: Id): nat
    decreases |es|
  {
    if es == [] then 0 else Usage(p, s, es[0], id) + TotalUsage(p, Step(p, s, es[0]).0, es[1..], id)
  }

  function NetEffect(p: Policy, s: Db, es: seq<Event>, id: Id): int
    decreases |es|
  {
    if es == [] then 0 else Effect(p, s, es[0], id) + NetEffect(p, Step(p, s, es[0]).0, es[1..], id)
  }

  function TotalAbandoned(p: Policy, s: Db, es: seq<Event>, id: Id): nat
    decreases |es|
  {
    if es == [] then 0 else Abandoned(s, es[0], id) + TotalAbandoned(p, Step(p, s, es[0]).0, es[1..], id)
  }

  /** A step hands a hold back only by taking it out of the table. */
  lemma StepReturns(p: Policy, s: Db, e: Event, id: Id)
    requires Inv(p, s)
    requires e.Reserve? ==> e.id !in s.holds
    ensures Returns(s, e, id) && !(e.Reserve? && e.id == id) ==> id !in Step(p, s, e).0.holds
    ensures id !in s.holds && !(e.Reserve? && e.id == id) ==> id !in Step(p, s, e).0.holds
  {
    hide Decide, PredictedWait, Refill, HeldBy, Observe;
  }

  /**
   * A hold is returned at most once, by a sweep or by its commit and never by
   * both; not at all once the id is known and holds nothing.
   */
  lemma {:induction false} ReturnedAtMostOnce(p: Policy, s: Db, used: set<Id>, es: seq<Event>, id: Id)
    requires Inv(p, s) && Known(s, used) && FreshIds(used, es)
    ensures ReturnCount(p, s, es, id) <= if id in s.holds || id !in used then 1 else 0
    decreases |es|
  {
    hide Step, Inv;
    if es != [] {
      StepReturns(p, s, es[0], id);
      StepKnown(p, s, used, es[0]);
      StepInv(p, s, es[0]);
      ReturnedAtMostOnce(p, Step(p, s, es[0]).0, used + Named(es[0]), es[1..], id);
    }
  }

  lemma ReserveEffect(p: Policy, s: Db, e: Event, id: Id)
    requires e.Reserve? && e.id !in s.holds
    ensures Effect(p, s, e, id) + Outstanding(Step(p, s, e).0, id) == Outstanding(s, id)
  {
    hide Decide, PredictedWait, Refill, HeldBy;
  }

  lemma StepEffect(p: Policy, s: Db, e: Event, id: Id)
    requires e.Reserve? ==> e.id !in s.holds
    ensures Effect(p, s, e, id) + Outstanding(Step(p, s, e).0, id)
         == Outstanding(s, id) - Abandoned(s, e, id) - Usage(p, s, e, id)
  {
    if e.Reserve? {
      ReserveEffect(p, s, e, id);
    } else {
      hide Refill, Observe;
    }
  }

  /** The account of one reservation over any run: whatever was held and not abandoned comes back, usage is charged. */
  lemma {:induction false} ReservationAccount(p: Policy, s: Db, used: set<Id>, es: seq<Event>, id: Id)
    requires Known(s, used) && FreshIds(used, es)
    ensures NetEffect(p, s, es, id) + Outstanding(Run(p, s, es), id)
         == Outstanding(s, id) - TotalAbandoned(p, s, es, id) - TotalUsage(p, s, es, id)
    decreases |es|
  {
    hide Step, Effect, Usage, Abandoned, Outstanding;
    if es != [] {
      StepEffect(p, s, es[0], id);
      StepKnown(p, s, used, es[0]);
      ReservationAccount(p, Step(p, s, es[0]).0, used + Named(es[0]), es[1..], id);
    }
  }

  // ----- Replays -----

  /** Every commit of `id` in the run is answered as a duplicate, with the refund on record. */
  ghost predicate AllReplays(p: Policy, s: Db, es: seq<Event>, id: Id, refund: int) {
    forall i :: 0 <= i < |es| && es[i].Commit? && es[i].id == id ==>
      && Replies(p, s, es)[i].CommitReply?
      && Replies(p, s, es)[i].status == DuplicateIgnored
      && Replies(p, s, es)[i].refund == refund
  }

  lemma StepMarker(p: Policy, s: Db, e: Event, id: Id)
    requires id in s.settled && Elapsed([e]) < s.settled[id].until - s.clock
    ensures var t := Step(p, s, e).0;
      && id in t.settled && t.settled[id] == s.settled[id] && t.clock == s.clock + Elapsed([e])
    ensures Usage(p, s, e, id) == 0
    ensures e.Commit? && e.id == id ==>
      && Step(p, s, e).1.CommitReply?
      && Step(p, s, e).1.status == DuplicateIgnored && Step(p, s, e).1.refund == s.settled[id].refund
  {
    hide Decide, PredictedWait, Refill, HeldBy, Observe, Due;
    assert Elapsed([e]) == if e.Tick? then e.ms else 0;
  }

  /** While the marker lives, every further commit of the reservation is ignored. */
  lemma {:induction false} MarkerHolds(p: Policy, s: Db, es: seq<Event>, id: Id)
    requires id in s.settled && Elapsed(es) < s.settled[id].until - s.clock
    ensures TotalUsage(p, s, es, id) == 0
    ensures AllReplays(p, s, es, id, s.settled[id].refund)
    decreases |es|
  {
    hide Step, Usage;
    if es != [] {
      var (next, r) := Step(p, s, es[0]);
      assert Elapsed(es) == Elapsed([es[0]]) + Elapsed(es[1..]);
      StepMarker(p, s, es[0], id);
      MarkerHolds(p, next, es[1..], id);
      assert Replies(p, s, es) == [r] + Replies(p, next, es[1..]);
      forall i | 0 <= i < |es| && es[i].Commit? && es[i].id == id
        ensures Replies(p, s, es)[i].CommitReply?
        ensures Replies(p, s, es)[i].status == DuplicateIgnored
        ensures Replies(p, s, es)[i].refund == s.settled[id].refund
      {
        if i > 0 {
          assert es[i] == es[1..][i - 1];
          assert Replies(p, s, es)[i] == Replies(p, next, es[1..])[i - 1];
        }
      }
    }
  }

  ghost predicate Uncommitted(es: seq<Event>, id: Id) {
    forall e :: e in es && e.Commit? ==> e.id != id
  }

  lemma StepUnmarked(p: Policy, s: Db, e: Event, id: Id)
    requires !(e.Commit? && e.id == id)
    ensures var t := Step(p, s, e).0;
      && (id in t.settled <==> id in s.settled && (e.Tick? ==> s.clock + e.ms < s.settled[id].until))
      && (id in t.settled ==> t.settled[id] == s.settled[id])
      && t.clock == s.clock + Elapsed([e])
    ensures Usage(p, s, e, id) == 0
  {
    hide Decide, PredictedWait, Refill, HeldBy, Observe, Due;
    assert Elapsed([e]) == if e.Tick? then e.ms else 0;
  }

  /** Without further commits the marker stays exactly for its lifetime. */
  lemma {:induction false} MarkerLifetime(p: Policy, s: Db, es: seq<Event>, id: Id)
    requires Uncommitted(es, id)
    requires id in s.settled ==> s.clock < s.settled[id].until
    ensures var t := Run(p, s, es);
      && (id in t.settled <==> id in s.settled && Elapsed(es) < s.settled[id].until - s.clock)
      && (id in t.settled ==> t.settled[id] == s.settled[id])
    ensures TotalUsage(p, s, es, id) == 0
    decreases |es|
  {
    hide Step, Usage;
    if es != [] {
      assert es[0] in es;
      assert forall e :: e in es[1..] ==> e in es;
      assert Elapsed(es) == Elapsed([es[0]]) + Elapsed(es[1..]);
      assert Elapsed([es[0]]) == if es[0].Tick? then es[0].ms else 0;
      StepUnmarked(p, s, es[0], id);
      MarkerLifetime(p, Step(p, s, es[0]).0, es[1..], id);
    }
  }

  lemma CommitLeavesMarker(p: Policy, s: Db, c: Event)
    requires c.Commit? && c.id !in s.settled
    ensures var t := Step(p, s, c).0;
      && c.id in t.settled && c.id !in t.holds && t.clock == s.clock
      && t.settled[c.id] == Marker(Outstanding(s, c.id) - c.prompt - c.output, s.clock + p.IdempotencyMs())
    ensures Usage(p, s, c, c.id) == c.prompt + c.output
  {
    hide Refill, Observe;
  }

  /**
   * Idempotency lasts exactly as long as its record: a second commit of the
   * same reservation, however it compares with the first, is ignored if and
   * only if less than the idempotency horizon has passed on the Redis clock,
   * and then answered with the first one's refund. Past it the usage is charged
   * again.
   */
  lemma ReplayIgnoredWithinHorizon(p: Policy, s: Db, first: Event, between: seq<Event>, second: Event)
    requires first.Commit? && second.Commit? && first.id == second.id
    requires first.id !in s.settled && Uncommitted(between, first.id)
    ensures var t := Run(p, Step(p, s, first).0, between);
            var ignored := Elapsed(between) < 1000 * p.idempotencySeconds;
      && Step(p, t, second).1.CommitReply?
      && (Step(p, t, second).1.status == DuplicateIgnored <==> ignored)
      && (ignored ==> Step(p, t, second).1.refund == Step(p, s, first).1.refund)
      && Usage(p, s, first, first.id) + Usage(p, t, second, first.id)
         == first.prompt + first.output + (if ignored then 0 else second.prompt + second.output)
  {
    hide Step, Run, Elapsed;
    CommitLeavesMarker(p, s, first);
    MarkerLifetime(p, Step(p, s, first).0, between, first.id);
    var t := Run(p, Step(p, s, first).0, between);
    CommitShape(p, s, first);
    CommitShape(p, t, second);
  }

  // ----- Releases -----

  /**
   * A release gives the whole hold back and nothing else: it is answered as
   * committed with the hold as refund, the tokens shown rise by it up to the
   * limit, the lease goes, no usage is charged and no statistics are touched.
   */
  lemma ReleaseReturnsTheHold(p: Policy, s: Db, now: int, id: Id)
    requires Inv(p, s) && id in s.holds && id !in s.settled
    ensures var (t, r) := Step(p, s, Release(now, id)); var before := SnapshotStep(p, s, now);
      && r.CommitReply? && r.status == Committed && r.refund == s.holds[id]
      && r.tokensRemaining == Min(before.tokens + s.holds[id], p.tokensPerMinute)
      && r.inflight == before.inflight - 1
      && t.holds == s.holds - {id} && t.leases == s.leases - {id} && t.stats == s.stats && t.rpm == s.rpm
      && StepLedger(p, s, Release(now, id)).charged == 0
  {
    hide Step, Refill, Observe, FloorDiv, Min, Accrual;
    CommitShape(p, s, Release(now, id));
    SnapshotPredictsCommit(p, s, Release(now, id));
    NothingObserved(s.stats);
  }

  lemma NothingObserved(stats: Stats)
    ensures Observe(stats, 0, 0) == stats
  {
  }

  lemma {:induction false} AccountAppend(p: Policy, s: Db, xs: seq<Event>, ys: seq<Event>, id: Id)
    ensures NetEffect(p, s, xs + ys, id) == NetEffect(p, s, xs, id) + NetEffect(p, Run(p, s, xs), ys, id)
    ensures TotalUsage(p, s, xs + ys, id) == TotalUsage(p, s, xs, id) + TotalUsage(p, Run(p, s, xs), ys, id)
    ensures Run(p, s, xs + ys) == Run(p, Run(p, s, xs), ys)
    decreases |xs|
  {
    hide Step, Effect, Usage;
    if xs == [] {
      assert xs + ys == ys;
    } else {
      assert (xs + ys)[1..] == xs[1..] + ys;
      AccountAppend(p, Step(p, s, xs[0]).0, xs[1..], ys, id);
    }
  }

  lemma {:induction false} NeverHeldAgain(p: Policy, s: Db, used: set<Id>, es: seq<Event>, id: Id)
    requires Inv(p, s) && Known(s, used) && FreshIds(used, es)
    requires id in used && id !in s.holds
    ensures id !in Run(p, s, es).holds
    decreases |es|
  {
    hide Step, Inv;
    if es != [] {
      StepReturns(p, s, es[0], id);
      StepKnown(p, s, used, es[0]);
      StepInv(p, s, es[0]);
      NeverHeldAgain(p, Step(p, s, es[0]).0, used + Named(es[0]), es[1..], id);
    }
  }

  function AllNamed(es: seq<Event>): set<Id> {
    if es == [] then {} else Named(es[0]) + AllNamed(es[1..])
  }

  lemma {:induction false} FreshAppend(p: Policy, s: Db, used: set<Id>, xs: seq<Event>, ys: seq<Event>)
    requires Known(s, used) && FreshIds(used, xs + ys)
    ensures FreshIds(used, xs) && FreshIds(used + AllNamed(xs), ys)
    ensures Known(Run(p, s, xs), used + AllNamed(xs))
    decreases |xs|
  {
    hide Step;
    if xs == [] {
      assert xs + ys == ys;
      assert used + AllNamed(xs) == used;
    } else {
      assert (xs + ys)[1..] == xs[1..] + ys && (xs + ys)[0] == xs[0];
      StepKnown(p, s, used, xs[0]);
      FreshAppend(p, Step(p, s, xs[0]).0, used + Named(xs[0]), xs[1..], ys);
      assert used + Named(xs[0]) + AllNamed(xs[1..]) == used + AllNamed(xs);
    }
  }

  // ----- Holds nobody takes back -----

  /**
   * From the reserve that names `id` on, no stretch without a reserve call lasts
   * a whole key lifetime of the Redis clock. `left` is what remains of the
   * current one.
   */
  predicate Attended(p: Policy, es: seq<Event>, id: Id, left: Option<nat>)
    decreases |es|
  {
    es != [] ==>
      match es[0]
      case Reserve(_, _, _, _, rid, _) =>
        Attended(p, es[1..], id, if rid == id || left.Some? then Some(p.TtlMs()) else None)
      case Tick(ms) =>
        && (left.Some? ==> ms < left.value)
        && Attended(p, es[1..], id, if left.Some? then Some(left.value - ms) else None)
      case _ => Attended(p, es[1..], id, left)
  }

  ghost predicate HeldFor(s: Db, id: Id, left: Option<nat>) {
    id in s.holds ==> left.Some? && s.holdsUntil == s.clock + left.value
  }

  lemma StepHeldFor(p: Policy, s: Db, e: Event, id: Id, left: Option<nat>)
    requires HeldFor(s, id, left) && (e.Tick? && left.Some? ==> e.ms < left.value)
    ensures Abandoned(s, e, id) == 0
    ensures var left' :=
        if e.Reserve? then (if e.id == id || left.Some? then Some(p.TtlMs()) else None)
        else if e.Tick? && left.Some? then Some(left.value - e.ms)
        else left;
      HeldFor(Step(p, s, e).0, id, left')
  {
    hide Step, Prepare, VerdictOf, Holding, CurrentBalance, Observe;
    if e.Reserve? {
      ReserveShape(p, s, e);
      SweepAddsNothing(p, s, e.now, id);
    } else if e.Commit? {
      CommitShape(p, s, e);
    } else {
      TickOrSnapshotShape(p, s, e);
    }
  }

  lemma SweepAddsNothing(p: Policy, s: Db, now: int, id: Id)
    ensures id in Prepare(p, s, now).holds ==> id in s.holds
  {
    hide Due, HeldBy, Refill;
  }

  /** As long as reserve calls keep coming, the lease table is not dropped with the hold in it. */
  lemma {:induction false} AttendedIsKept(p: Policy, s: Db, es: seq<Event>, id: Id, left: Option<nat>)
    requires HeldFor(s, id, left) && Attended(p, es, id, left)
    ensures TotalAbandoned(p, s, es, id) == 0
    decreases |es|
  {
    hide Step, HeldFor, Abandoned;
    if es != [] {
      var e := es[0];
      StepHeldFor(p, s, e, id, left);
      var left' :=
        if e.Reserve? then (if e.id == id || left.Some? then Some(p.TtlMs()) else None)
        else if e.Tick? && left.Some? then Some(left.value - e.ms)
        else left;
      AttendedIsKept(p, Step(p, s, e).0, es[1..], id, left');
    }
  }

  /** Less than one key lifetime is attended, whatever is called in it. */
  lemma {:induction false} PromptIsAttended(p: Policy, es: seq<Event>, id: Id, left: nat)
    requires Elapsed(es) < left <= p.TtlMs()
    ensures Attended(p, es, id, Some(left))
    decreases |es|
  {
    if es != [] {
      PromptIsAttended(p, es[1..], id,
        if es[0].Reserve? then p.TtlMs() else if es[0].Tick? then left - es[0].ms else left);
    }
  }

  /** Before anything names `id` nothing has to be attended. */
  lemma {:induction false} AttendedAppend(p: Policy, xs: seq<Event>, ys: seq<Event>, id: Id)
    requires id !in AllNamed(xs) && Attended(p, ys, id, None)
    ensures Attended(p, xs + ys, id, None)
    decreases |xs|
  {
    if xs == [] {
      assert xs + ys == ys;
    } else {
      assert (xs + ys)[1..] == xs[1..] + ys && (xs + ys)[0] == xs[0];
      AttendedAppend(p, xs[1..], ys, id);
    }
  }

  lemma {:induction false} AbandonedAppend(p: Policy, s: Db, xs: seq<Event>, ys: seq<Event>, id: Id)
    ensures TotalAbandoned(p, s, xs + ys, id) == TotalAbandoned(p, s, xs, id) + TotalAbandoned(p, Run(p, s, xs), ys, id)
    decreases |xs|
  {
    hide Step, Abandoned;
    if xs == [] {
      assert xs + ys == ys;
    } else {
      assert (xs + ys)[1..] == xs[1..] + ys;
      AbandonedAppend(p, Step(p, s, xs[0]).0, xs[1..], ys, id);
    }
  }

  lemma {:induction false} GoneIsNotAbandoned(p: Policy, s: Db, used: set<Id>, es: seq<Event>, id: Id)
    requires Inv(p, s) && Known(s, used) && FreshIds(used, es)
    requires id in used && id !in s.holds
    ensures TotalAbandoned(p, s, es, id) == 0
    decreases |es|
  {
    hide Step, Inv;
    if es != [] {
      StepReturns(p, s, es[0], id);
      StepKnown(p, s, used, es[0]);
      StepInv(p, s, es[0]);
      GoneIsNotAbandoned(p, Step(p, s, es[0]).0, used + Named(es[0]), es[1..], id);
    }
  }

  // ----- Exactly once -----

  /**
   * Exactly-once settlement. Take any run from an empty store in which `commit`
   * is the first commit of its id, reserve calls keep coming until then, and
   * what follows stays within the idempotency horizon: the reservation's net
   * effect on the tenant is minus what that first commit used, whether or not a
   * sweep came first.
   */
  lemma ExactlyOnce(p: Policy, clock: int, before: seq<Event>, commit: Event, after: seq<Event>)
    requires commit.Commit? && Uncommitted(before, commit.id)
    requires FreshIds({}, before + ([commit] + after)) && Elapsed(after) < p.IdempotencyMs()
    requires Attended(p, before, commit.id, None)
    ensures var s, es := Empty(clock), before + ([commit] + after);
      && NetEffect(p, s, es, commit.id) == -(commit.prompt + commit.output)
      && ReturnCount(p, s, es, commit.id) <= 1
      && commit.id !in Run(p, s, es).holds
  {
    hide Step, Inv, Known, FreshIds, Run, TotalUsage, TotalAbandoned, Attended;
    var s, id := Empty(clock), commit.id;
    var es, mid := before + ([commit] + after), Run(p, Empty(clock), before);
    EmptyInv(p, clock);
    EmptyKnown(clock);
    ReturnedAtMostOnce(p, s, {}, es, id);
    ReservationAccount(p, s, {}, es, id);
    AccountAppend(p, s, before, [commit] + after, id);
    AbandonedAppend(p, s, before, [commit] + after, id);
    AttendedIsKept(p, s, before, id, None);
    MarkerLifetime(p, s, before, id);
    FreshAppend(p, s, {}, before, [commit] + after);
    RunInv(p, s, before);
    FromFirstCommit(p, mid, AllNamed(before), commit, after);
  }

  /** In particular when the first commit comes less than one key lifetime after the grant. */
  lemma ExactlyOnceWhenPrompt(
    p: Policy, clock: int, past: seq<Event>, grant: Event, wait: seq<Event>, commit: Event, after: seq<Event>)
    requires grant.Reserve? && commit.Commit? && grant.id == commit.id && grant.id !in AllNamed(past)
    requires Uncommitted(past + ([grant] + wait), commit.id)
    requires FreshIds({}, past + ([grant] + wait) + ([commit] + after))
    requires Elapsed(wait) < p.TtlMs() && Elapsed(after) < p.IdempotencyMs()
    ensures NetEffect(p, Empty(clock), past + ([grant] + wait) + ([commit] + after), commit.id)
         == -(commit.prompt + commit.output)
  {
    PromptIsAttended(p, wait, grant.id, p.TtlMs());
    assert ([grant] + wait)[1..] == wait;
    AttendedAppend(p, past, [grant] + wait, grant.id);
    ExactlyOnce(p, clock, past + ([grant] + wait), commit, after);
  }

  /** A grant of one token, silence for `delay`, and the commit of that token. */
  function AfterSilence(id: Id, delay: nat): seq<Event> {
    [Reserve(0, 0, 1, 0.0, id, 0), Tick(delay), Commit(delay, id, 0, 1, 0)]
  }

  lemma FirstGrant(p: Policy, id: Id, clock: int)
    ensures var t := Step(p, Empty(clock), Reserve(0, 0, 1, 0.0, id, 0)).0;
      && t.leases == map[id := p.LeaseMs()] && t.holds == map[id := 1] && t.settled == map[]
      && t.clock == clock && t.leasesUntil == t.holdsUntil == t.tpmUntil == clock + p.TtlMs()
      && t.tpm == Some(Bucket(p.TokenCap() - GRAIN, 0))
  {
    var e := Reserve(0, 0, 1, 0.0, id, 0);
    ReserveShape(p, Empty(clock), e);
    PrepareUnswept(p, Empty(clock), 0);
    HoldWithinDeclaration(p.mode, p.safety, 0, 1, 0.0);
    MulMonotone(1, p.tokensPerMinute, GRAIN);
    MulMonotone(1, p.requestsPerMinute, GRAIN);
    hide Step, Prepare, Due;
  }

  lemma ThreeSteps(p: Policy, s: Db, a: Event, b: Event, c: Event, id: Id)
    ensures var t := Step(p, s, a).0; var u := Step(p, t, b).0;
      && Run(p, s, [a, b, c]) == Step(p, u, c).0
      && TotalUsage(p, s, [a, b, c], id) == Usage(p, s, a, id) + Usage(p, t, b, id) + Usage(p, u, c, id)
      && TotalAbandoned(p, s, [a, b, c], id) == Abandoned(s, a, id) + Abandoned(t, b, id) + Abandoned(u, c, id)
  {
    hide Step, Usage, Abandoned;
    var t := Step(p, s, a).0;
    var u := Step(p, t, b).0;
    assert [a, b, c][1..] == [b, c] && [b, c][1..] == [c] && [c][1..] == [];
    assert Run(p, u, [c]) == Step(p, u, c).0 && Run(p, t, [b, c]) == Run(p, u, [c]);
    assert TotalUsage(p, u, [c], id) == Usage(p, u, c, id);
    assert TotalUsage(p, t, [b, c], id) == Usage(p, t, b, id) + Usage(p, u, c, id);
    assert TotalAbandoned(p, u, [c], id) == Abandoned(u, c, id);
    assert TotalAbandoned(p, t, [b, c], id) == Abandoned(t, b, id) + Abandoned(u, c, id);
  }

  lemma SilentFacts(p: Policy, id: Id, delay: nat)
    ensures var es := AfterSilence(id, delay);
      && TotalAbandoned(p, Empty(0), es, id) == (if delay < p.TtlMs() then 0 else 1)
      && TotalUsage(p, Empty(0), es, id) == 1
      && id !in Run(p, Empty(0), es).holds
  {
    hide Step, Run, TotalUsage, TotalAbandoned;
    var es := AfterSilence(id, delay);
    FirstGrant(p, id, 0);
    var s1 := Step(p, Empty(0), es[0]).0;
    TickOrSnapshotShape(p, s1, es[1]);
    var s2 := Step(p, s1, es[1]).0;
    CommitLeavesMarker(p, s2, es[2]);
    ThreeSteps(p, Empty(0), es[0], es[1], es[2], id);
  }

  lemma SilentIsFresh(id: Id, delay: nat)
    ensures FreshIds({}, AfterSilence(id, delay))
  {
    var es := AfterSilence(id, delay);
    assert es[1..] == [es[1], es[2]] && es[1..][1..] == [es[2]];
    assert FreshIds({id}, [es[2]]);
    assert {} + Named(es[0]) + Named(es[1]) == {id};
  }

  /**
   * A whole key lifetime without a reserve call is exactly what it takes to
   * lose a hold: for every policy and delay, the grant of one token followed by
   * silence and its commit nets to minus that token if and only if the silence
   * is shorter than the lifetime.
   */
  lemma SilenceLosesTheHold(p: Policy, id: Id, delay: nat)
    ensures FreshIds({}, AfterSilence(id, delay))
    ensures NetEffect(p, Empty(0), AfterSilence(id, delay), id) == -1
       <==> delay < 1000 * Max(120, 2 * p.leaseSeconds + 60)
  {
    hide NetEffect, TotalAbandoned, TotalUsage, FreshIds, Run;
    SilentIsFresh(id, delay);
    SilentFacts(p, id, delay);
    EmptyKnown(0);
    ReservationAccount(p, Empty(0), {}, AfterSilence(id, delay), id);
  }

  lemma EmptyKnown(clock: int)
    ensures Known(Empty(clock), {})
  {
  }

  /** From the first commit on: its usage is charged, nothing further is, and the hold never comes back. */
  lemma FromFirstCommit(p: Policy, mid: Db, used: set<Id>, commit: Event, after: seq<Event>)
    requires commit.Commit? && commit.id !in mid.settled
    requires Inv(p, mid) && Known(mid, used) && FreshIds(used, [commit] + after)
    requires Elapsed(after) < p.IdempotencyMs()
    ensures TotalUsage(p, mid, [commit] + after, commit.id) == commit.prompt + commit.output
    ensures TotalAbandoned(p, mid, [commit] + after, commit.id) == 0
    ensures commit.id !in Run(p, mid, [commit] + after).holds
  {
    hide Step, Inv, Usage;
    var t, es := Step(p, mid, commit).0, [commit] + after;
    assert es[0] == commit && es[1..] == after;
    CommitLeavesMarker(p, mid, commit);
    MarkerHolds(p, t, after, commit.id);
    StepInv(p, mid, commit);
    StepKnown(p, mid, used, commit);
    NeverHeldAgain(p, t, used + Named(commit), after, commit.id);
    GoneIsNotAbandoned(p, t, used + Named(commit), after, commit.id);
  }

  // ----- Sweep then commit, against commit alone -----

  /** The two balances, in one place: a sweep of `swept` grains at t1 and a commit at t2, or the commit alone. */
  lemma TwoPaths(x: int, late: nat, swept: nat, held: nat, actual: nat, cap: int)
    requires x <= cap && held <= swept
    ensures var a := Min(Min(Min(x + swept, cap) + late, cap) - actual, cap);
            var b := Min(Min(x + late, cap) + held - actual, cap);
      && a + held <= b + swept
      && (a + held == b + swept <==>
            x + swept + late <= cap || swept == 0 || (actual == 0 && swept == held))
  {
  }

  lemma HeldByMember(holds: map<Id, nat>, ids: seq<Id>, id: Id)
    requires id in ids && id in holds
    ensures holds[id] <= HeldBy(holds, ids)
  {
    if id != ids[0] {
      HeldByMember(holds, ids[1..], id);
    }
  }

  /** A shed poll that sweeps at `poll.now`: its effect on the keys that matter here. */
  lemma PollSweeps(p: Policy, s: Db, poll: Event)
    requires poll.Reserve? && !Step(p, s, poll).1.verdict.Admit?
    ensures var t, ids := Step(p, s, poll).0, Due(s.leases, poll.now, RECLAIM_BATCH);
      && t.holds == s.holds - Elems(ids) && t.settled == s.settled
      && t.tpm == Some(Bucket(Min(Refill(s.tpm, poll.now, p.tokensPerMinute, p.TokenCap())
                                  + HeldBy(s.holds, ids) * GRAIN, p.TokenCap()), poll.now))
  {
    hide Decide, PredictedWait, HeldBy, Refill, Due;
    assert Step(p, s, poll) == ReserveStep(p, s, poll.now, Holding(p, poll), poll.id, poll.slo);
  }

  lemma CommitWealth(p: Policy, s: Db, c: Event)
    requires c.Commit? && c.id !in s.settled
    ensures Wealth(p, Step(p, s, c).0)
         == Min(Refill(s.tpm, c.now, p.tokensPerMinute, p.TokenCap())
                + (Outstanding(s, c.id) - c.prompt - c.output) * GRAIN, p.TokenCap())
            + (Total(s.holds) - Outstanding(s, c.id)) * GRAIN
  {
    hide Step, Refill, Observe, Policy.TokenCap, Total, Min;
    CommitShape(p, s, c);
    TakenFromTotal(s.holds, c.id);
  }

  /**
   * A sweep that beats a commit never leaves the tenant better off than the
   * commit alone, counting balance and holds together; and equally well off
   * exactly when no clamp bites, nothing was swept, or there was nothing to
   * settle.
   */
  lemma SweepThenCommit(p: Policy, s: Db, poll: Event, c: Event)
    requires poll.Reserve? && !Step(p, s, poll).1.verdict.Admit?
    requires c.Commit? && c.id !in s.settled && c.id in s.holds
    requires c.id in Due(s.leases, poll.now, RECLAIM_BATCH)
    requires poll.now <= c.now && (s.tpm.Some? ==> s.tpm.value.ts <= poll.now)
    ensures var swept := HeldBy(s.holds, Due(s.leases, poll.now, RECLAIM_BATCH));
            var both, alone := Wealth(p, Run(p, s, [poll, c])), Wealth(p, Run(p, s, [c]));
      && both <= alone
      && (both == alone <==>
            || Refill(s.tpm, poll.now, p.tokensPerMinute, p.TokenCap()) + swept * GRAIN
               + Earn(c.now - poll.now, p.tokensPerMinute) <= p.TokenCap()
            || swept == 0
            || (c.prompt + c.output == 0 && swept == s.holds[c.id]))
  {
    hide Step, Run, Refill, Earn, Wealth, HeldBy, Due, Total, Policy.TokenCap;
    var rate, cap := p.tokensPerMinute, p.TokenCap();
    var swept, held := HeldBy(s.holds, Due(s.leases, poll.now, RECLAIM_BATCH)), s.holds[c.id];
    HeldByMember(s.holds, Due(s.leases, poll.now, RECLAIM_BATCH), c.id);
    var x, late := Refill(s.tpm, poll.now, rate, cap), Earn(c.now - poll.now, rate);
    SweptWealth(p, s, poll, c);
    AloneWealth(p, s, poll.now, c);
    EarnMonotone(0, c.now - poll.now, rate);
    EarnZero(rate);
    RefillRange(s.tpm, poll.now, rate, cap);
    TwoPaths(x, late, swept * GRAIN, held * GRAIN, (c.prompt + c.output) * GRAIN, cap);
  }

  lemma SweptWealth(p: Policy, s: Db, poll: Event, c: Event)
    requires poll.Reserve? && !Step(p, s, poll).1.verdict.Admit?
    requires c.Commit? && c.id !in s.settled && c.id in s.holds
    requires c.id in Due(s.leases, poll.now, RECLAIM_BATCH) && poll.now <= c.now
    ensures var swept := HeldBy(s.holds, Due(s.leases, poll.now, RECLAIM_BATCH));
            var rate, cap := p.tokensPerMinute, p.TokenCap();
      Wealth(p, Run(p, s, [poll, c]))
      == Min(Min(Min(Refill(s.tpm, poll.now, rate, cap) + swept * GRAIN, cap) + Earn(c.now - poll.now, rate), cap)
             - (c.prompt + c.output) * GRAIN, cap)
         + (Total(s.holds) - swept) * GRAIN
  {
    hide Step, Refill, Earn, Wealth, HeldBy, Due, Total, Policy.TokenCap;
    var rate, cap, ids := p.tokensPerMinute, p.TokenCap(), Due(s.leases, poll.now, RECLAIM_BATCH);
    var mid := Step(p, s, poll).0;
    assert Run(p, s, [poll, c]) == Step(p, mid, c).0 by {
      assert [poll, c][1..] == [c];
      assert Run(p, mid, [c]) == Step(p, mid, c).0;
    }
    PollSweeps(p, s, poll);
    CommitWealth(p, mid, c);
    TotalSweep(s.holds, ids);
    SameLaterRead(s.tpm, poll.now, c.now, rate, cap);
    assert c.id in Elems(ids);
    assert Outstanding(mid, c.id) == 0;
  }

  lemma AloneWealth(p: Policy, s: Db, mid: int, c: Event)
    requires c.Commit? && c.id !in s.settled && c.id in s.holds
    requires mid <= c.now && (s.tpm.Some? ==> s.tpm.value.ts <= mid)
    ensures var rate, cap := p.tokensPerMinute, p.TokenCap();
      Wealth(p, Run(p, s, [c]))
      == Min(Min(Refill(s.tpm, mid, rate, cap) + Earn(c.now - mid, rate), cap)
             + s.holds[c.id] * GRAIN - (c.prompt + c.output) * GRAIN, cap)
         + (Total(s.holds) - s.holds[c.id]) * GRAIN
  {
    hide Step, Refill, Earn, Wealth, Total, Policy.TokenCap, Min;
    CommitWealth(p, s, c);
    SameLaterRead(s.tpm, mid, c.now, p.tokensPerMinute, p.TokenCap());
    assert (s.holds[c.id] - c.prompt - c.output) * GRAIN == s.holds[c.id] * GRAIN - (c.prompt + c.output) * GRAIN;
  }

  /** A later read, from the stored bucket or from one written at `mid`. */
  lemma SameLaterRead(b: Option<Bucket>, mid: int, now: int, rate: nat, cap: int)
    requires mid <= now
    ensures (b.Some? ==> b.value.ts <= mid) ==>
      Refill(b, now, rate, cap) == Min(Refill(b, mid, rate, cap) + Earn(now - mid, rate), cap)
    ensures forall bal :: Refill(Some(Bucket(bal, mid)), now, rate, cap) == Min(bal + Earn(now - mid, rate), cap)
  {
    EarnMonotone(0, now - mid, rate);
    if b.Some? && b.value.ts <= mid {
      RefillTwice(b.value, mid, now, rate, cap);
    }
  }
}
