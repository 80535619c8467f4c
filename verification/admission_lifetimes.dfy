/** What the key lifetimes can and cannot take away. */
module AdmissionLifetimes {
  import opened Basics
  import opened LeaseIndex
  import opened Budgets
  import opened Admission
  import opened AdmissionLedger
  import opened AdmissionBounds
  import opened AdmissionReads
  import opened AdmissionSettlement

  // ----- Leases, holds and balance outlive every live lease -----

  /** The skew the key lifetime tolerates: half of a lease and a minute. */
  predicate Tolerable(p: Policy, skew: nat) {
    2 * skew <= p.LeaseMs() + 60000
  }

  ghost predicate LeasesDated(p: Policy, s: Db, skew: nat) {
    && s.leasesUntil == s.holdsUntil <= s.clock + p.TtlMs()
    && (forall id :: id in s.leases ==> s.leases[id] + p.TtlMs() - p.LeaseMs() - skew <= s.leasesUntil)
    && (s.leases != map[] ==> s.leasesUntil <= s.tpmUntil && s.leasesUntil <= s.rpmUntil)
  }

  lemma StepLeasesDated(p: Policy, s: Db, e: Event, skew: nat)
    requires LeasesDated(p, s, skew) && Skewed(s.clock, [e], skew)
    ensures LeasesDated(p, Step(p, s, e).0, skew)
    ensures Step(p, s, e).0.clock == s.clock + (if e.Tick? then e.ms else 0)
  {
    hide Step, VerdictOf, Holding, CurrentBalance, Refill, HeldBy, Due, Observe;
    if e.Reserve? {
      ReserveShape(p, s, e);
    } else if e.Commit? {
      CommitShape(p, s, e);
    } else {
      TickOrSnapshotShape(p, s, e);
    }
  }

  lemma {:induction false} RunLeasesDated(p: Policy, s: Db, es: seq<Event>, skew: nat)
    requires LeasesDated(p, s, skew) && Skewed(s.clock, es, skew)
    ensures LeasesDated(p, Run(p, s, es), skew)
    decreases |es|
  {
    hide Step, LeasesDated;
    if es != [] {
      StepLeasesDated(p, s, es[0], skew);
      RunLeasesDated(p, Step(p, s, es[0]).0, es[1..], skew);
    }
  }

  /**
   * No balance, lease or hold key expires while a lease is still live on any
   * gateway: when time takes one of them away, every lease in the table had
   * already expired on every clock within the tolerated skew.
   */
  lemma NothingLiveExpires(p: Policy, clock: int, es: seq<Event>, skew: nat, ms: nat)
    requires Tolerable(p, skew) && Skewed(clock, es, skew)
    ensures var s := Run(p, Empty(clock), es); var t := TickStep(s, ms);
      (t.leases != s.leases || t.holds != s.holds || t.tpm != s.tpm || t.rpm != s.rpm) ==>
        forall id :: id in s.leases ==> s.leases[id] <= t.clock - skew
  {
    var s := Run(p, Empty(clock), es);
    RunLeasesDated(p, Empty(clock), es, skew);
    var t := TickStep(s, ms);
    if t.leases != s.leases || t.holds != s.holds || t.tpm != s.tpm || t.rpm != s.rpm {
      if s.leases != map[] {
        assert s.leasesUntil <= t.clock;
      }
    }
  }

  // ----- Budget expiry against budgets that never expire -----

  function StepForever(p: Policy, s: Db, e: Event): (Db, Reply) {
    if e.Tick? then (TickStep(s, e.ms).(tpm := s.tpm, rpm := s.rpm), NoReply) else Step(p, s, e)
  }

  function RunForever(p: Policy, s: Db, es: seq<Event>): Db
    decreases |es|
  {
    if es == [] then s else RunForever(p, StepForever(p, s, es[0]).0, es[1..])
  }

  function RepliesForever(p: Policy, s: Db, es: seq<Event>): (rs: seq<Reply>)
    decreases |es|
  {
    if es == [] then []
    else [StepForever(p, s, es[0]).1] + RepliesForever(p, StepForever(p, s, es[0]).0, es[1..])
  }

  /** The same budget, or one that is gone where the other has long been full. */
  ghost predicate TwinBudget(b: Option<Bucket>, kept: Option<Bucket>, clock: int, rate: nat, cap: int) {
    b == kept || (b.None? && kept.Some? && kept.value.ts <= clock && Refill(kept, clock, rate, cap) == cap)
  }

  ghost predicate Twins(p: Policy, s: Db, u: Db) {
    && s == u.(tpm := s.tpm, rpm := s.rpm)
    && TwinBudget(s.tpm, u.tpm, s.clock, p.tokensPerMinute, p.TokenCap())
    && TwinBudget(s.rpm, u.rpm, s.clock, p.requestsPerMinute, p.RequestCap())
  }

  lemma TwinTick(b: Option<Bucket>, kept: Option<Bucket>, until: int, clock: int, ms: nat, rate: nat, ttl: nat, cap: int)
    requires TwinBudget(b, kept, clock, rate, cap)
    requires Dated(b, until, clock, ttl, cap) && Shallow(b, rate, ttl, cap)
    ensures TwinBudget(if until <= clock + ms then None else b, kept, clock + ms, rate, cap)
  {
    if b != kept {
      FullStaysFull(kept.value, clock, clock + ms, rate, cap);
    } else if b.Some? && until <= clock + ms {
      MulMonotone(ttl, clock + ms - b.value.ts, rate);
    }
  }

  lemma TwinsReadAlike(p: Policy, s: Db, u: Db, now: int)
    requires Twins(p, s, u) && now == s.clock
    ensures CurrentBalance(p, s, now) == CurrentBalance(p, u, now)
  {
  }

  lemma SameIsTwin(b: Option<Bucket>, clock: int, rate: nat, cap: int)
    ensures TwinBudget(b, b, clock, rate, cap)
  {
  }

  lemma TwinReserve(p: Policy, s: Db, u: Db, e: Event)
    requires e.Reserve? && e.now == s.clock && Twins(p, s, u)
    ensures Step(p, s, e) == Step(p, u, e)
  {
    hide Decide, PredictedWait, HeldBy, Due, FloorDiv, ReserveStep, Policy.TokenCap, Policy.RequestCap;
    assert Prepare(p, s, e.now) == Prepare(p, u, e.now);
    SameReserve(p, s, u, e.now, Holding(p, e), e.id, e.slo);
  }

  /** The reserve step writes both budgets, and sees of the old ones only what it read. */
  lemma SameReserve(p: Policy, s: Db, u: Db, now: int, hold: nat, id: Id, slo: nat)
    requires s == u.(tpm := s.tpm, rpm := s.rpm) && Prepare(p, s, now) == Prepare(p, u, now)
    ensures ReserveStep(p, s, now, hold, id, slo) == ReserveStep(p, u, now, hold, id, slo)
  {
    hide Prepare, Decide, PredictedWait, FloorDiv;
  }

  lemma TwinCommit(p: Policy, s: Db, u: Db, e: Event)
    requires e.Commit? && e.now == s.clock && Twins(p, s, u)
    ensures Step(p, s, e).1 == Step(p, u, e).1
    ensures Twins(p, Step(p, s, e).0, Step(p, u, e).0)
  {
    hide Step, Observe, TwinBudget, Refill;
    TwinsReadAlike(p, s, u, e.now);
    CommitShape(p, s, e);
    CommitShape(p, u, e);
    hide CurrentBalance;
    if e.id !in s.settled {
      var t := Step(p, s, e).0;
      SameIsTwin(t.tpm, t.clock, p.tokensPerMinute, p.TokenCap());
    }
  }

  lemma StepTwins(p: Policy, s: Db, u: Db, e: Event)
    requires Twins(p, s, u) && InSync(p, s) && Inv(p, s) && Synced(s.clock, [e])
    requires Shallow(s.tpm, p.tokensPerMinute, p.TtlMs(), p.TokenCap())
    ensures Twins(p, Step(p, s, e).0, StepForever(p, u, e).0)
    ensures Step(p, s, e).1 == StepForever(p, u, e).1
  {
    match e
    case Reserve(_, _, _, _, _, _) => TwinReserve(p, s, u, e);
    case Commit(_, _, _, _, _) => TwinCommit(p, s, u, e);
    case Snapshot(_) =>
    case Tick(ms) =>
      MulMonotone(GRAIN, p.TtlMs(), p.requestsPerMinute);
      TwinTick(s.tpm, u.tpm, s.tpmUntil, s.clock, ms, p.tokensPerMinute, p.TtlMs(), p.TokenCap());
      TwinTick(s.rpm, u.rpm, s.rpmUntil, s.clock, ms, p.requestsPerMinute, p.TtlMs(), p.RequestCap());
      hide Refill;
  }

  lemma {:induction false} TwinRuns(p: Policy, s: Db, u: Db, es: seq<Event>)
    requires Twins(p, s, u) && InSync(p, s) && Inv(p, s)
    requires Synced(s.clock, es) && ShallowRun(p, s, es)
    ensures Replies(p, s, es) == RepliesForever(p, u, es)
    ensures Twins(p, Run(p, s, es), RunForever(p, u, es))
    decreases |es|
  {
    hide Step, StepForever, Twins, InSync, Inv, Shallow;
    if es != [] {
      SyncedHead(s.clock, es);
      StepTwins(p, s, u, es[0]);
      StepInSync(p, s, es[0]);
      StepInv(p, s, es[0]);
      TwinRuns(p, Step(p, s, es[0]).0, StepForever(p, u, es[0]).0, es[1..]);
    }
  }

  /**
   * Budget-key expiry is indistinguishable from natural refill: under one
   * clock, as long as no debt is deeper than the key's lifetime pays off, the
   * run gives the replies of a run whose budget keys never expire.
   */
  lemma ExpiryIsNaturalRefill(p: Policy, clock: int, es: seq<Event>)
    requires Synced(clock, es) && ShallowRun(p, Empty(clock), es)
    ensures Replies(p, Empty(clock), es) == RepliesForever(p, Empty(clock), es)
  {
    EmptyInv(p, clock);
    TwinRuns(p, Empty(clock), Empty(clock), es);
  }

  /**
   * The depth at which expiry starts to forgive, exactly: a debt of up to
   * ttl - 60 seconds of refill is paid off by the time the key goes, which is
   * at least one full minute's limit; anything deeper is not.
   */
  lemma PaidOffExactly(p: Policy, b: Bucket)
    requires b.bal <= p.TokenCap()
    ensures Refill(Some(b), b.ts + p.TtlMs(), p.tokensPerMinute, p.TokenCap()) == p.TokenCap()
       <==> -b.bal <= Earn(p.TtlMs() - 60000, p.tokensPerMinute)
    ensures Shallow(Some(b), p.tokensPerMinute, p.TtlMs(), p.TokenCap())
       <==> -b.bal <= Earn(p.TtlMs() - 60000, p.tokensPerMinute)
    ensures p.TokenCap() <= Earn(p.TtlMs() - 60000, p.tokensPerMinute)
  {
    EarnAdds(p.TtlMs() - 60000, 60000, p.tokensPerMinute);
    EarnMonotone(60000, p.TtlMs() - 60000, p.tokensPerMinute);
  }

  /** The most prompt tokens, and the most output tokens, the commit route accepts in one call. */
  const LARGEST_COMMIT: nat := 10_000_000

  /** The longest service time it accepts, in milliseconds. */
  const LONGEST_SERVICE: nat := 3_600_000

  /** Commits of the largest size the route accepts, each for an id of its own. */
  function Burst(now: int, id: Id, n: nat): seq<Event>
    decreases n
  {
    if n == 0 then [] else [Commit(now, id, LARGEST_COMMIT, 0, 0)] + Burst(now, id + 1, n - 1)
  }

  /** Every commit of the run is one the route accepts, for an id not committed before. */
  predicate Acceptable(committed: set<Id>, es: seq<Event>)
    decreases |es|
  {
    es != [] ==>
      && (es[0].Commit? ==>
            && es[0].id !in committed && es[0].serviceMs <= LONGEST_SERVICE
            && es[0].prompt <= LARGEST_COMMIT && es[0].output <= LARGEST_COMMIT)
      && Acceptable(committed + (if es[0].Commit? then {es[0].id} else {}), es[1..])
  }

  function BurstIds(id: Id, n: nat): (ids: set<Id>)
    ensures forall k :: k in ids ==> id <= k
    decreases n
  {
    if n == 0 then {} else {id} + BurstIds(id + 1, n - 1)
  }

  lemma {:induction false} BurstAcceptable(now: int, id: Id, n: nat, committed: set<Id>, rest: seq<Event>)
    requires forall k :: k in committed ==> k < id
    requires Acceptable(committed + BurstIds(id, n), rest) && Synced(now, rest)
    ensures Acceptable(committed, Burst(now, id, n) + rest) && Synced(now, Burst(now, id, n) + rest)
    decreases n
  {
    var es := Burst(now, id, n) + rest;
    if n == 0 {
      assert es == rest && BurstIds(id, n) == {} && committed + {} == committed;
    } else {
      assert es[1..] == Burst(now, id + 1, n - 1) + rest;
      assert committed + BurstIds(id, n) == committed + {id} + BurstIds(id + 1, n - 1);
      BurstAcceptable(now, id + 1, n - 1, committed + {id}, rest);
    }
  }

  /** `t` is `s` after commits of `spent` tokens at `now`, for ids from `from` to before `id`. */
  ghost predicate Drained(p: Policy, s: Db, t: Db, now: int, from: Id, id: Id, spent: nat) {
    var bal := Refill(s.tpm, now, p.tokensPerMinute, p.TokenCap()) - spent * GRAIN;
    && t.clock == s.clock && t.holds == s.holds && t.leases == s.leases
    && t.holdsUntil == s.holdsUntil && t.leasesUntil == s.leasesUntil
    && (forall k :: k in t.settled ==> k in s.settled || from <= k < id)
    && Refill(t.tpm, now, p.tokensPerMinute, p.TokenCap()) == bal
    && (spent > 0 ==> t.tpm == Some(Bucket(bal, now)) && t.tpmUntil == s.clock + p.TtlMs())
  }

  /** The store knows nothing of the ids from `from` on. */
  ghost predicate Unknown(s: Db, from: Id) {
    forall k :: k in s.settled || k in s.holds ==> k < from
  }

  lemma DrainOne(p: Policy, s: Db, t: Db, now: int, from: Id, id: Id, spent: nat)
    requires Unknown(s, from) && from <= id && Drained(p, s, t, now, from, id, spent)
    ensures Drained(p, s, Step(p, t, Commit(now, id, LARGEST_COMMIT, 0, 0)).0, now, from, id + 1, spent + LARGEST_COMMIT)
  {
    hide Step, Refill, Observe, Policy.TokenCap, Min;
    var left := Refill(s.tpm, now, p.tokensPerMinute, p.TokenCap()) - (spent + LARGEST_COMMIT) * GRAIN;
    CommitShape(p, t, Commit(now, id, LARGEST_COMMIT, 0, 0));
    assert t.holds - {id} == t.holds;
    RefillRange(s.tpm, now, p.tokensPerMinute, p.TokenCap());
    MinOfSmaller(left, p.TokenCap());
    WrittenReadable(left, now, p.tokensPerMinute, p.TokenCap());
  }

  lemma MinOfSmaller(a: int, b: int)
    requires a <= b
    ensures Min(a, b) == a
  {
  }

  lemma {:induction false} BurstDrains(p: Policy, s: Db, t: Db, now: int, from: Id, id: Id, n: nat, spent: nat)
    requires Unknown(s, from) && from <= id && Drained(p, s, t, now, from, id, spent)
    ensures Drained(p, s, Run(p, t, Burst(now, id, n)), now, from, id + n, spent + n * LARGEST_COMMIT)
    ensures RunForever(p, t, Burst(now, id, n)) == Run(p, t, Burst(now, id, n))
    decreases n
  {
    hide Step, Drained, Unknown;
    if n > 0 {
      var e := Commit(now, id, LARGEST_COMMIT, 0, 0);
      DrainOne(p, s, t, now, from, id, spent);
      assert Burst(now, id, n)[0] == e && Burst(now, id, n)[1..] == Burst(now, id + 1, n - 1);
      BurstDrains(p, s, Step(p, t, e).0, now, from, id + 1, n - 1, spent + LARGEST_COMMIT);
    }
  }

  lemma {:induction false} LastStep(p: Policy, s: Db, es: seq<Event>, e: Event)
    ensures Run(p, s, es + [e]) == Step(p, Run(p, s, es), e).0
    ensures RunForever(p, s, es + [e]) == StepForever(p, RunForever(p, s, es), e).0
    decreases |es|
  {
    hide Step, StepForever;
    if es == [] {
      assert es + [e] == [e] && [e][1..] == [];
      assert Run(p, Step(p, s, e).0, []) == Step(p, s, e).0;
      assert RunForever(p, StepForever(p, s, e).0, []) == StepForever(p, s, e).0;
    } else {
      assert (es + [e])[1..] == es[1..] + [e];
      LastStep(p, Step(p, s, es[0]).0, es[1..], e);
      LastStep(p, StepForever(p, s, es[0]).0, es[1..], e);
    }
  }

  /** The burst at `clock`, then silence until the budget keys go. */
  function DeepDebt(p: Policy, clock: int, id: Id, n: nat): seq<Event> {
    Burst(clock, id, n) + [Tick(p.TtlMs())]
  }

  lemma DeepDebtAcceptable(p: Policy, clock: int, id: Id, n: nat)
    ensures Acceptable({}, DeepDebt(p, clock, id, n)) && Synced(clock, DeepDebt(p, clock, id, n))
  {
    var rest := [Tick(p.TtlMs())];
    assert rest[1..] == [];
    assert Acceptable({} + BurstIds(id, n), rest);
    BurstAcceptable(clock, id, n, {}, rest);
  }

  /** What a snapshot shows at the instant the keys go, with and without expiry. */
  lemma DeepDebtReads(p: Policy, clock: int, id: Id, n: pos)
    ensures var es, late := DeepDebt(p, clock, id, n), clock + p.TtlMs();
            var bal := p.TokenCap() - n * LARGEST_COMMIT * GRAIN;
      && SnapshotStep(p, Run(p, Empty(clock), es), late).tokens == p.tokensPerMinute
      && SnapshotStep(p, RunForever(p, Empty(clock), es), late).tokens
         == FloorDiv(Min(bal + Earn(p.TtlMs(), p.tokensPerMinute), p.TokenCap()), GRAIN)
  {
    hide Run, RunForever, Step, StepForever, FloorDiv, Earn;
    var s := Run(p, Empty(clock), Burst(clock, id, n));
    BurstDrains(p, Empty(clock), Empty(clock), clock, id, id, n, 0);
    LastStep(p, Empty(clock), Burst(clock, id, n), Tick(p.TtlMs()));
    ExpireOrKeep(p, s, p.TokenCap() - n * LARGEST_COMMIT * GRAIN);
    FullInTokens(p);
  }

  lemma ExpireOrKeep(p: Policy, s: Db, bal: int)
    requires s.tpm == Some(Bucket(bal, s.clock)) && s.tpmUntil == s.clock + p.TtlMs()
    ensures Step(p, s, Tick(p.TtlMs())).0.tpm == None
    ensures StepForever(p, s, Tick(p.TtlMs())).0.tpm == Some(Bucket(bal, s.clock))
    ensures Refill(Some(Bucket(bal, s.clock)), s.clock + p.TtlMs(), p.tokensPerMinute, p.TokenCap())
         == Min(bal + Earn(p.TtlMs(), p.tokensPerMinute), p.TokenCap())
  {
  }

  lemma FullInTokens(p: Policy)
    ensures FloorDiv(p.TokenCap(), GRAIN) == p.tokensPerMinute
  {
    FloorIsLargest(p.TokenCap(), GRAIN, p.tokensPerMinute);
    FloorIsLargest(p.TokenCap(), GRAIN, p.tokensPerMinute + 1);
  }

  /**
   * Expiry forgives, exactly: at any clock, after `n` commits of the largest
   * size the route accepts and one key lifetime of silence, the tenant reads a
   * full budget; without expiry it would read a full budget if and only if its
   * debt was at most ttl - 60 seconds of refill.
   */
  lemma ForgivenExactly(p: Policy, clock: int, id: Id, n: pos)
    ensures var es, late := DeepDebt(p, clock, id, n), clock + p.TtlMs();
      && Acceptable({}, es) && Synced(clock, es)
      && SnapshotStep(p, Run(p, Empty(clock), es), late).tokens == p.tokensPerMinute
      && (SnapshotStep(p, RunForever(p, Empty(clock), es), late).tokens == p.tokensPerMinute
          <==> n * LARGEST_COMMIT * GRAIN - p.TokenCap() <= Earn(p.TtlMs() - 60000, p.tokensPerMinute))
  {
    hide Run, RunForever, SnapshotStep, Earn, FloorDiv;
    DeepDebtAcceptable(p, clock, id, n);
    DeepDebtReads(p, clock, id, n);
    EarnAdds(p.TtlMs() - 60000, 60000, p.tokensPerMinute);
    MinuteIsCap(p);
    var late := Min(p.TokenCap() - n * LARGEST_COMMIT * GRAIN + Earn(p.TtlMs(), p.tokensPerMinute), p.TokenCap());
    FloorIsLargest(late, GRAIN, p.tokensPerMinute);
    FullInTokens(p);
  }

  lemma MinuteIsCap(p: Policy)
    ensures Earn(60000, p.tokensPerMinute) == p.TokenCap()
  {
  }

  /** As many commits of the largest size as it takes to owe `grains` and be short of full still. */
  function Enough(p: Policy, grains: nat): (n: pos)
    ensures p.TokenCap() + grains < n * LARGEST_COMMIT * GRAIN
  {
    CeilDiv(p.TokenCap() + grains + 1, LARGEST_COMMIT * GRAIN)
  }

  /** What one key lifetime earns. */
  function LifetimeEarns(p: Policy): nat {
    MulMonotone(0, p.TtlMs(), p.tokensPerMinute);
    Earn(p.TtlMs(), p.tokensPerMinute)
  }

  /**
   * Deeper debt is forgiven: for every policy and at any clock there is a run of
   * acceptable calls after which the tenant reads a full budget although, by
   * refill alone, it would still be in debt.
   */
  lemma DeepDebtIsForgiven(p: Policy, clock: int, id: Id)
    ensures var es, late := DeepDebt(p, clock, id, Enough(p, LifetimeEarns(p))), clock + p.TtlMs();
      && Acceptable({}, es) && Synced(clock, es)
      && SnapshotStep(p, Run(p, Empty(clock), es), late).tokens == p.tokensPerMinute
      && SnapshotStep(p, RunForever(p, Empty(clock), es), late).tokens < 0
  {
    hide Run, RunForever, SnapshotStep, Earn, FloorDiv;
    var n := Enough(p, LifetimeEarns(p));
    DeepDebtAcceptable(p, clock, id, n);
    DeepDebtReads(p, clock, id, n);
    var late := Min(p.TokenCap() - n * LARGEST_COMMIT * GRAIN + Earn(p.TtlMs(), p.tokensPerMinute), p.TokenCap());
    assert late < 0;
    FloorIsLargest(late, GRAIN, 0);
  }

  // ----- A hold that nobody takes back -----

  /** A grant of one token, and `at` later enough usage of other ids to leave the budget short. */
  function Opening(id: Id, at: nat, n: nat): seq<Event> {
    [Reserve(0, 0, 1, 0.0, id, 0), Tick(at)] + Burst(at, id + 1, n)
  }

  /** The granted token is committed only after `delay` more without a reserve call. */
  function SettledLate(id: Id, at: nat, n: nat, delay: nat): seq<Event> {
    Opening(id, at, n) + [Tick(delay)] + [Commit(at + delay, id, 0, 1, 0)]
  }

  /** The same calls with the token committed before the delay. */
  function SettledInTime(id: Id, at: nat, n: nat, delay: nat): seq<Event> {
    Opening(id, at, n) + [Commit(at, id, 0, 1, 0)] + [Tick(delay)]
  }

  /** The budget after the opening, at its write. */
  ghost predicate Opened(p: Policy, s: Db, id: Id, at: nat, n: pos, bal: int) {
    && s.clock == at && s.tpm == Some(Bucket(bal, at)) && s.tpmUntil == at + p.TtlMs()
    && bal <= p.TokenCap() - n * LARGEST_COMMIT * GRAIN
    && s.holds == map[id := 1] && s.leases.Keys == {id} && id !in s.settled
    && s.holdsUntil == s.leasesUntil == p.TtlMs()
  }

  /** The budget the opening's commits leave. */
  function OpeningBalance(p: Policy, at: nat, n: nat): int {
    Refill(Some(Bucket(p.TokenCap() - GRAIN, 0)), at, p.tokensPerMinute, p.TokenCap()) - n * LARGEST_COMMIT * GRAIN
  }

  lemma OpeningState(p: Policy, id: Id, at: nat, n: pos)
    requires at < p.TtlMs()
    ensures Opened(p, Run(p, Empty(0), Opening(id, at, n)), id, at, n, OpeningBalance(p, at, n))
  {
    hide Step, Run, Refill;
    var first := [Reserve(0, 0, 1, 0.0, id, 0), Tick(at)];
    var s1 := Step(p, Empty(0), first[0]).0;
    var s2 := Step(p, s1, first[1]).0;
    FirstGrant(p, id, 0);
    TickOrSnapshotShape(p, s1, first[1]);
    TwoSteps(p, Empty(0), first[0], first[1]);
    assert s2.tpm == Some(Bucket(p.TokenCap() - GRAIN, 0)) && s2.holds == map[id := 1];
    BurstDrains(p, s2, s2, at, id + 1, id + 1, n, 0);
    RunAppend(p, Empty(0), first, Burst(at, id + 1, n));
    RefillRange(s2.tpm, at, p.tokensPerMinute, p.TokenCap());
  }

  lemma TwoSteps(p: Policy, s: Db, e: Event, f: Event)
    ensures Run(p, s, [e, f]) == Step(p, Step(p, s, e).0, f).0
  {
    hide Step;
    assert [e, f][1..] == [f];
    assert Run(p, Step(p, s, e).0, [f]) == Step(p, Step(p, s, e).0, f).0;
  }

  /** With room below the limit, the late commit gives back the hold if it is still there and charges its token. */
  lemma LateBalance(p: Policy, s: Db, id: Id, at: nat, n: pos, bal: int, delay: nat)
    requires Opened(p, s, id, at, n, bal) && delay < p.TtlMs()
    requires GRAIN + Earn(delay, p.tokensPerMinute) <= n * LARGEST_COMMIT * GRAIN
    ensures var t := Step(p, s, Tick(delay)).0; var u := Step(p, t, Commit(at + delay, id, 0, 1, 0)).0;
      u.tpm == Some(Bucket(bal + Earn(delay, p.tokensPerMinute) - (if at + delay < p.TtlMs() then 0 else GRAIN),
                           at + delay))
  {
    hide Step, Earn, Observe, Policy.TokenCap, Refill;
    var t := Step(p, s, Tick(delay)).0;
    TickOrSnapshotShape(p, s, Tick(delay));
    CommitBucket(p, t, Commit(at + delay, id, 0, 1, 0));
    LaterRead(p, bal, at, delay);
  }

  lemma LaterRead(p: Policy, bal: int, at: int, delay: nat)
    ensures Refill(Some(Bucket(bal, at)), at + delay, p.tokensPerMinute, p.TokenCap())
         == Min(bal + Earn(delay, p.tokensPerMinute), p.TokenCap())
  {
  }

  lemma InTimeBalance(p: Policy, s: Db, id: Id, at: nat, n: pos, bal: int, delay: nat)
    requires Opened(p, s, id, at, n, bal) && delay < p.TtlMs()
    requires GRAIN + Earn(delay, p.tokensPerMinute) <= n * LARGEST_COMMIT * GRAIN
    ensures var t := Step(p, s, Commit(at, id, 0, 1, 0)).0;
      Step(p, t, Tick(delay)).0.tpm == Some(Bucket(bal, at))
  {
    hide Step, Earn, Observe, Policy.TokenCap, Refill;
    var t := Step(p, s, Commit(at, id, 0, 1, 0)).0;
    CommitShape(p, s, Commit(at, id, 0, 1, 0));
    LaterRead(p, bal, at, 0);
    EarnZero(p.tokensPerMinute);
    TickOrSnapshotShape(p, t, Tick(delay));
  }

  /**
   * Tokens that go missing, exactly: take a grant, and any amount of other usage
   * that leaves the budget below its limit, less than a key lifetime later; then
   * a further delay without reserve calls, and the commit of the granted token.
   * Against the same calls with that commit before the delay, the balance is one
   * token short if and only if the grant has been left alone for a whole key
   * lifetime: the lease table has gone, the budget key has not.
   */
  lemma SilenceLosesTokens(p: Policy, id: Id, at: nat, n: pos, delay: nat)
    requires at < p.TtlMs() && delay < p.TtlMs()
    requires GRAIN + Earn(delay, p.tokensPerMinute) <= n * LARGEST_COMMIT * GRAIN
    ensures var late := Run(p, Empty(0), SettledLate(id, at, n, delay));
            var inTime := Run(p, Empty(0), SettledInTime(id, at, n, delay));
      SnapshotStep(p, late, at + delay).tokens
      == SnapshotStep(p, inTime, at + delay).tokens - (if at + delay < p.TtlMs() then 0 else 1)
  {
    hide Step, Run, Refill, FloorDiv, Earn, Opened, Policy.TokenCap;
    var s, bal := Run(p, Empty(0), Opening(id, at, n)), OpeningBalance(p, at, n);
    OpeningState(p, id, at, n);
    LateBalance(p, s, id, at, n, bal, delay);
    InTimeBalance(p, s, id, at, n, bal, delay);
    LastStep(p, Empty(0), Opening(id, at, n), Tick(delay));
    LastStep(p, Empty(0), Opening(id, at, n) + [Tick(delay)], Commit(at + delay, id, 0, 1, 0));
    LastStep(p, Empty(0), Opening(id, at, n), Commit(at, id, 0, 1, 0));
    LastStep(p, Empty(0), Opening(id, at, n) + [Commit(at, id, 0, 1, 0)], Tick(delay));
    OpenedBalance(p, s, id, at, n, bal);
    ShortByOne(p, bal, at, delay, if at + delay < p.TtlMs() then 0 else 1);
  }

  lemma OpenedBalance(p: Policy, s: Db, id: Id, at: nat, n: pos, bal: int)
    requires Opened(p, s, id, at, n, bal)
    ensures bal <= p.TokenCap() - n * LARGEST_COMMIT * GRAIN
  {
  }

  /** Reading, at one instant, a balance written then and the same balance written earlier. */
  lemma ShortByOne(p: Policy, bal: int, at: nat, delay: nat, short: nat)
    requires bal + Earn(delay, p.tokensPerMinute) <= p.TokenCap()
    ensures FloorDiv(Refill(Some(Bucket(bal + Earn(delay, p.tokensPerMinute) - short * GRAIN, at + delay)), at + delay,
                            p.tokensPerMinute, p.TokenCap()), GRAIN)
         == FloorDiv(Refill(Some(Bucket(bal, at)), at + delay, p.tokensPerMinute, p.TokenCap()), GRAIN) - short
  {
    var later := bal + Earn(delay, p.tokensPerMinute);
    LaterRead(p, bal, at, delay);
    WrittenReadable(later - short * GRAIN, at + delay, p.tokensPerMinute, p.TokenCap());
    FloorBelow(later, short);
  }

  /**
   * For every policy such a run exists, of acceptable calls: the grant is left
   * alone for exactly one key lifetime, and a token is gone.
   */
  lemma SomeSilenceLosesTokens(p: Policy, id: Id)
    ensures var at, n := p.TtlMs() - 1, Enough(p, p.tokensPerMinute);
            var es := SettledLate(id, at, n, 1);
      && Acceptable({}, es) && Synced(0, es)
      && SnapshotStep(p, Run(p, Empty(0), es), p.TtlMs()).tokens
         == SnapshotStep(p, Run(p, Empty(0), SettledInTime(id, at, n, 1)), p.TtlMs()).tokens - 1
  {
    hide Run, SnapshotStep;
    var at, n := p.TtlMs() - 1, Enough(p, p.tokensPerMinute);
    SilenceLosesTokens(p, id, at, n, 1);
    SettledLateAcceptable(id, at, n, 1);
  }

  lemma SettledLateAcceptable(id: Id, at: nat, n: nat, delay: nat)
    ensures Acceptable({}, SettledLate(id, at, n, delay)) && Synced(0, SettledLate(id, at, n, delay))
  {
    var first := [Reserve(0, 0, 1, 0.0, id, 0), Tick(at)];
    var rest := [Tick(delay), Commit(at + delay, id, 0, 1, 0)];
    var es := SettledLate(id, at, n, delay);
    assert es == first + (Burst(at, id + 1, n) + rest);
    assert rest[1..] == [rest[1]] && [rest[1]][1..] == [];
    assert Acceptable(BurstIds(id + 1, n), [rest[1]]) && Acceptable(BurstIds(id + 1, n), rest);
    assert Synced(at + delay, [rest[1]]) && Synced(at, rest);
    assert {} + BurstIds(id + 1, n) == BurstIds(id + 1, n);
    BurstAcceptable(at, id + 1, n, {}, rest);
    var middle := Burst(at, id + 1, n) + rest;
    assert es[1..] == [Tick(at)] + middle && es[1..][1..] == middle;
    var none: set<Id> := {};
    assert none + none == none;
    assert Acceptable(none, middle) && Acceptable(none, es[1..]) && Synced(0, es[1..]);
  }
}
