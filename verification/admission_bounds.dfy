/** How much a tenant can spend, and how deep it can go into debt. */
module AdmissionBounds {
  import opened Basics
  import opened LeaseIndex
  import opened Budgets
  import opened Estimator
  import opened Admission
  import opened AdmissionLedger

  // ----- Debt -----

  function Debt(p: Policy, s: Db): nat {
    Max(0, -Stored(s.tpm, p.TokenCap()))
  }

  /** Tokens used beyond the hold; a late commit has no hold, so all of its usage counts. */
  function Overrun(p: Policy, s: Db, e: Event): nat {
    if e.Commit? && e.id !in s.settled then
      Max(0, e.prompt + e.output - (if e.id in s.holds then s.holds[e.id] else 0))
    else 0
  }

  function Overruns(p: Policy, s: Db, es: seq<Event>): nat
    decreases |es|
  {
    if es == [] then 0 else Overrun(p, s, es[0]) + Overruns(p, Step(p, s, es[0]).0, es[1..])
  }

  /** Reading a balance never finds more debt than was stored. */
  lemma ReadDebt(b: Option<Bucket>, now: int, rate: nat, cap: nat)
    ensures Min(0, Stored(b, cap)) <= Refill(b, now, rate, cap)
  {
    if b.Some? {
      MulMonotone(0, Max(0, now - b.value.ts), rate);
    }
  }

  lemma StepDebt(p: Policy, s: Db, e: Event)
    ensures Debt(p, Step(p, s, e).0) <= Debt(p, s) + Overrun(p, s, e) * GRAIN
  {
    hide Step, PredictedWait, Due, HeldBy, Refill, Observe;
    if e.Reserve? {
      ReserveShape(p, s, e);
      ReadDebt(s.tpm, e.now, p.tokensPerMinute, p.TokenCap());
    } else if e.Commit? {
      CommitShape(p, s, e);
      ReadDebt(s.tpm, e.now, p.tokensPerMinute, p.TokenCap());
    } else {
      OtherShape(p, s, e);
    }
  }

  /** Debt bound: overruns are the only way into debt. */
  lemma {:induction false} DebtBound(p: Policy, s: Db, es: seq<Event>)
    ensures Debt(p, Run(p, s, es)) <= Debt(p, s) + Overruns(p, s, es) * GRAIN
    decreases |es|
  {
    hide Step, Debt, Overrun;
    if es != [] {
      StepDebt(p, s, es[0]);
      DebtBound(p, Step(p, s, es[0]).0, es[1..]);
    }
  }

  /** Nothing is admitted until the settled balance covers it, so an admission leaves no debt. */
  lemma AdmittedIsCovered(p: Policy, s: Db, e: Event)
    requires e.Reserve? && Step(p, s, e).1.verdict.Admit?
    ensures Holding(p, e) * GRAIN
         <= Refill(s.tpm, e.now, p.tokensPerMinute, p.TokenCap())
            + HeldBy(s.holds, Due(s.leases, e.now, RECLAIM_BATCH)) * GRAIN
    ensures Debt(p, Step(p, s, e).0) == 0
    ensures Holding(p, e) <= p.tokensPerMinute
  {
    hide PredictedWait, Due, HeldBy;
  }

  lemma {:induction false} OverrunsAppend(p: Policy, s: Db, xs: seq<Event>, ys: seq<Event>)
    ensures Overruns(p, s, xs + ys) == Overruns(p, s, xs) + Overruns(p, Run(p, s, xs), ys)
    ensures Run(p, s, xs + ys) == Run(p, Run(p, s, xs), ys)
    decreases |xs|
  {
    hide Step, Overrun;
    if xs == [] {
      assert xs + ys == ys;
    } else {
      assert (xs + ys)[1..] == xs[1..] + ys;
      OverrunsAppend(p, Step(p, s, xs[0]).0, xs[1..], ys);
    }
  }

  /**
   * An admission settles all debt: whatever came before it, at any later point
   * of the run the debt is at most the overruns since the last admission.
   */
  lemma DebtSinceAdmission(p: Policy, s: Db, before: seq<Event>, grant: Event, after: seq<Event>)
    requires grant.Reserve? && Step(p, Run(p, s, before), grant).1.verdict.Admit?
    ensures Debt(p, Run(p, s, before + ([grant] + after))) <= Overruns(p, Run(p, s, before + [grant]), after) * GRAIN
  {
    hide Step, Debt, Overruns;
    var mid := Run(p, s, before);
    AdmittedIsCovered(p, mid, grant);
    OverrunsAppend(p, s, before, [grant] + after);
    OverrunsAppend(p, s, before, [grant]);
    OverrunsAppend(p, mid, [grant], after);
    assert [grant][1..] == [];
    assert Run(p, Step(p, mid, grant).0, []) == Step(p, mid, grant).0;
    assert Run(p, mid, [grant]) == Step(p, mid, grant).0;
    DebtBound(p, Step(p, mid, grant).0, after);
  }

  // ----- Spending against the forward movement of the gateway clocks -----

  function Forward(last: Option<int>, es: seq<Event>): nat
    decreases |es|
  {
    if es == [] then 0
    else if es[0].Tick? then Forward(last, es[1..])
    else
      (if last.None? then 0 else Max(0, es[0].now - last.value)) + Forward(Some(es[0].now), es[1..])
  }

  /** Movement seen since the balance was last written but not yet accrued. */
  function Pending(last: Option<int>, s: Db): nat {
    if last.Some? && s.tpm.Some? then Max(0, last.value - s.tpm.value.ts) else 0
  }

  /** A reserve, or a commit that is not a replay, writes the balance at `now`. */
  predicate Writes(s: Db, e: Event) {
    e.Reserve? || (e.Commit? && e.id !in s.settled)
  }

  lemma WriteShape(p: Policy, s: Db, e: Event)
    requires Writes(s, e)
    ensures Step(p, s, e).0.tpm.Some? && Step(p, s, e).0.tpm.value.ts == e.now
    ensures StepLedger(p, s, e).accrued == Accrual(s.tpm, e.now, p.tokensPerMinute)
    ensures StepLedger(p, s, e).forgiven == 0
  {
    hide Decide, PredictedWait, Due, HeldBy, Observe, Refill, Accrual;
  }

  /** Any other step leaves the balance and its timestamp alone, or takes them away. */
  lemma OtherShape(p: Policy, s: Db, e: Event)
    requires !Writes(s, e)
    ensures Step(p, s, e).0.tpm == s.tpm || Step(p, s, e).0.tpm == None
    ensures StepLedger(p, s, e).accrued == 0
    ensures !e.Tick? ==> Step(p, s, e).0 == s && StepLedger(p, s, e) == ZERO
  {
  }

  lemma StepAccrual(p: Policy, last: Option<int>, s: Db, e: Event)
    requires s.tpm.Some? ==> last.Some?
    ensures var last', t := if e.Tick? then last else Some(e.now), Step(p, s, e).0;
      && (t.tpm.Some? ==> last'.Some?)
      && StepLedger(p, s, e).accrued + Earn(Pending(last', t), p.tokensPerMinute)
         <= Earn(Pending(last, s) + Forward(last, [e]), p.tokensPerMinute)
  {
    hide Step, StepLedger;
    var rate := p.tokensPerMinute;
    var last', t := if e.Tick? then last else Some(e.now), Step(p, s, e).0;
    assert Forward(last, [e]) == if e.Tick? || last.None? then 0 else Max(0, e.now - last.value);
    if Writes(s, e) {
      WriteShape(p, s, e);
      var due := if s.tpm.Some? then Max(0, e.now - s.tpm.value.ts) else 0;
      assert Accrual(s.tpm, e.now, rate) == Earn(due, rate);
      EarnMonotone(due, Pending(last, s) + Forward(last, [e]), rate);
      assert Earn(Pending(last', t), rate) == 0;
    } else {
      OtherShape(p, s, e);
      EarnMonotone(Pending(last', t), Pending(last, s) + Forward(last, [e]), rate);
    }
  }

  lemma {:induction false} AccruedWithinForward(p: Policy, last: Option<int>, s: Db, es: seq<Event>)
    requires s.tpm.Some? ==> last.Some?
    ensures RunLedger(p, s, es).accrued <= Earn(Pending(last, s) + Forward(last, es), p.tokensPerMinute)
    decreases |es|
  {
    hide Step, StepLedger, Pending, Earn;
    var rate := p.tokensPerMinute;
    EarnZero(rate);
    if es == [] {
      EarnMonotone(0, Pending(last, s), rate);
    } else {
      StepAccrual(p, last, s, es[0]);
      var last' := if es[0].Tick? then last else Some(es[0].now);
      var t := Step(p, s, es[0]).0;
      AccruedWithinForward(p, last', t, es[1..]);
      var first, rest := Forward(last, [es[0]]), Forward(last', es[1..]);
      assert Forward(last, es) == first + rest;
      EarnAdds(Pending(last', t), rest, rate);
      EarnAdds(Pending(last, s) + first, rest, rate);
    }
  }

  /** What each reservation declared when it was made. */
  type Declarations = map<Id, nat>

  function Declare(decl: Declarations, e: Event): Declarations {
    if e.Reserve? then decl[e.id := e.prompt + e.maxOutput] else decl
  }

  /** Every commit that is not a replay finds its hold in place and stays within its declaration. */
  ghost predicate Honest(p: Policy, s: Db, decl: Declarations, es: seq<Event>)
    decreases |es|
  {
    es != [] ==>
      && (es[0].Commit? && es[0].id !in s.settled ==>
            && es[0].id in s.holds
            && es[0].id in decl
            && es[0].prompt + es[0].output <= decl[es[0].id])
      && Honest(p, Step(p, s, es[0]).0, Declare(decl, es[0]), es[1..])
  }

  ghost predicate HoldsDeclared(s: Db, decl: Declarations) {
    forall id :: id in s.holds ==> id in decl && s.holds[id] == decl[id]
  }

  lemma StepHoldsDeclared(p: Policy, s: Db, decl: Declarations, e: Event)
    requires p.mode == WorstCase && HoldsDeclared(s, decl)
    requires e.Reserve? ==> e.id !in s.holds
    ensures HoldsDeclared(Step(p, s, e).0, Declare(decl, e))
  {
    hide Decide, PredictedWait, Due, HeldBy, Refill, Observe;
    if e.Reserve? {
      HoldWithinDeclaration(p.mode, p.safety, e.prompt, e.maxOutput, e.observed);
    }
  }

  /** An honest worst-case tenant is never in debt and never overruns. */
  lemma {:induction false} HonestNeverInDebt(p: Policy, s: Db, used: set<Id>, decl: Declarations, es: seq<Event>)
    requires p.mode == WorstCase && HoldsDeclared(s, decl) && Debt(p, s) == 0
    requires Known(s, used) && FreshIds(used, es) && Honest(p, s, decl, es)
    ensures Debt(p, Run(p, s, es)) == 0
    ensures Overruns(p, s, es) == 0
    decreases |es|
  {
    hide Step, Debt;
    if es != [] {
      StepDebt(p, s, es[0]);
      StepHoldsDeclared(p, s, decl, es[0]);
      StepKnown(p, s, used, es[0]);
      HonestNeverInDebt(p, Step(p, s, es[0]).0, used + Named(es[0]), Declare(decl, es[0]), es[1..]);
    }
  }

  // ----- Spending against one clock, key lifetimes included -----

  /** Every gateway reads the Redis clock. */
  predicate Synced(clock: int, es: seq<Event>)
    decreases |es|
  {
    es != [] ==>
      if es[0].Tick? then Synced(clock + es[0].ms, es[1..])
      else es[0].now == clock && Synced(clock, es[1..])
  }

  /** Every gateway clock stays within `skew` of the Redis clock. */
  predicate Skewed(clock: int, es: seq<Event>, skew: nat)
    decreases |es|
  {
    es != [] ==>
      if es[0].Tick? then Skewed(clock + es[0].ms, es[1..], skew)
      else clock - skew <= es[0].now <= clock + skew && Skewed(clock, es[1..], skew)
  }

  function Elapsed(es: seq<Event>): nat {
    if es == [] then 0 else (if es[0].Tick? then es[0].ms else 0) + Elapsed(es[1..])
  }

  /** A budget written at `ts` goes `ttl` later and not before. */
  ghost predicate Dated(b: Option<Bucket>, until: int, clock: int, ttl: nat, cap: int) {
    b.Some? ==> b.value.ts <= clock && until == b.value.ts + ttl && b.value.bal <= cap
  }

  /** The debt is one that the lifetime of the key pays off. */
  ghost predicate Shallow(b: Option<Bucket>, rate: nat, ttl: nat, cap: int) {
    b.Some? ==> cap <= b.value.bal + ttl * rate
  }

  ghost predicate InSync(p: Policy, s: Db) {
    && Dated(s.tpm, s.tpmUntil, s.clock, p.TtlMs(), p.TokenCap())
    && Dated(s.rpm, s.rpmUntil, s.clock, p.TtlMs(), p.RequestCap())
  }

  /** Time passing adds at most its accrual, even when it takes the key away. */
  lemma TickReadable(b: Option<Bucket>, until: int, clock: int, ms: nat, rate: nat, ttl: nat, cap: int)
    requires Dated(b, until, clock, ttl, cap) && Shallow(b, rate, ttl, cap)
    ensures Refill(if until <= clock + ms then None else b, clock + ms, rate, cap)
         <= Refill(b, clock, rate, cap) + Earn(ms, rate)
  {
    MulMonotone(0, ms, rate);
    if b.Some? {
      AccrueSplit(b.value.ts, clock, clock + ms, rate);
      if until <= clock + ms {
        MulMonotone(ttl, clock + ms - b.value.ts, rate);
      }
    }
  }

  lemma WrittenReadable(bal: int, now: int, rate: nat, cap: int)
    requires bal <= cap
    ensures Refill(Some(Bucket(bal, now)), now, rate, cap) == bal
  {
  }

  function Tokens(p: Policy, s: Db): int {
    Refill(s.tpm, s.clock, p.tokensPerMinute, p.TokenCap())
  }

  function Requests(p: Policy, s: Db): int {
    Refill(s.rpm, s.clock, p.requestsPerMinute, p.RequestCap())
  }

  function Admissions(p: Policy, s: Db, es: seq<Event>): nat
    decreases |es|
  {
    if es == [] then 0
    else
      (if es[0].Reserve? && Step(p, s, es[0]).1.verdict.Admit? then 1 else 0)
      + Admissions(p, Step(p, s, es[0]).0, es[1..])
  }

  lemma StepInSync(p: Policy, s: Db, e: Event)
    requires InSync(p, s) && Inv(p, s) && Synced(s.clock, [e])
    ensures InSync(p, Step(p, s, e).0)
    ensures Step(p, s, e).0.clock == s.clock + Elapsed([e])
  {
    StepInv(p, s, e);
    hide Decide, PredictedWait, Due, HeldBy, Refill, Observe;
  }

  lemma WriteTokens(p: Policy, s: Db, e: Event)
    requires Inv(p, s) && (e.Reserve? || (e.Commit? && e.id !in s.settled)) && e.now == s.clock
    requires e.Reserve? ==> e.id !in s.holds
    ensures var t, l := Step(p, s, e).0, StepLedger(p, s, e);
      Tokens(p, t) + Total(t.holds) * GRAIN + l.charged <= Tokens(p, s) + Total(s.holds) * GRAIN
  {
    StepConserves(p, s, e);
    StepInv(p, s, e);
    hide Decide, PredictedWait, Due, HeldBy, Observe, Accrual;
    var t, l := Step(p, s, e).0, StepLedger(p, s, e);
    WrittenReadable(t.tpm.value.bal, e.now, p.tokensPerMinute, p.TokenCap());
    SettleLedger(s.tpm, e.now, p.tokensPerMinute, p.TokenCap(), 0);
    hide Refill;
    assert t.clock == s.clock;
    assert Tokens(p, t) == Stored(t.tpm, p.TokenCap());
  }

  lemma StepTokens(p: Policy, s: Db, e: Event)
    requires InSync(p, s) && Inv(p, s) && Synced(s.clock, [e])
    requires Shallow(s.tpm, p.tokensPerMinute, p.TtlMs(), p.TokenCap())
    requires e.Reserve? ==> e.id !in s.holds
    ensures var t, l := Step(p, s, e).0, StepLedger(p, s, e);
      Tokens(p, t) + Total(t.holds) * GRAIN + l.charged
      <= Tokens(p, s) + Total(s.holds) * GRAIN + Earn(Elapsed([e]), p.tokensPerMinute)
  {
    hide ReserveStep, CommitStep, Refill;
    if e.Tick? {
      TickReadable(s.tpm, s.tpmUntil, s.clock, e.ms, p.tokensPerMinute, p.TtlMs(), p.TokenCap());
      assert Elapsed([e]) == e.ms;
    } else if e.Reserve? || (e.Commit? && e.id !in s.settled) {
      assert Elapsed([e]) == 0;
      WriteTokens(p, s, e);
    } else {
      assert Elapsed([e]) == 0;
      OtherShape(p, s, e);
    }
  }

  ghost predicate ShallowRun(p: Policy, s: Db, es: seq<Event>)
    decreases |es|
  {
    && Shallow(s.tpm, p.tokensPerMinute, p.TtlMs(), p.TokenCap())
    && (es != [] ==> ShallowRun(p, Step(p, s, es[0]).0, es[1..]))
  }

  lemma SyncedHead(clock: int, es: seq<Event>)
    requires es != [] && Synced(clock, es)
    ensures Synced(clock, [es[0]]) && Synced(clock + Elapsed([es[0]]), es[1..])
    ensures Elapsed(es) == Elapsed([es[0]]) + Elapsed(es[1..])
  {
  }

  /** Rate bound under one clock: what was there plus the rate times the time that passed covers all charges. */
  lemma {:induction false} SpendWithinRate(p: Policy, s: Db, used: set<Id>, es: seq<Event>)
    requires InSync(p, s) && Inv(p, s) && Synced(s.clock, es)
    requires Known(s, used) && FreshIds(used, es) && ShallowRun(p, s, es)
    ensures var t, l := Run(p, s, es), RunLedger(p, s, es);
      Tokens(p, t) + Total(t.holds) * GRAIN + l.charged
      <= Tokens(p, s) + Total(s.holds) * GRAIN + Earn(Elapsed(es), p.tokensPerMinute)
    decreases |es|
  {
    hide Step, StepLedger, Tokens, InSync, Inv, Earn, Total, Known, Synced, FreshIds, ShallowRun, Elapsed;
    if es == [] {
      SpendNothing(p);
    } else {
      var e, t := es[0], Step(p, s, es[0]).0;
      SpendStep(p, s, used, es);
      SpendWithinRate(p, t, used + Named(e), es[1..]);
      EarnAdds(Elapsed([e]), Elapsed(es[1..]), p.tokensPerMinute);
    }
  }

  lemma SpendNothing(p: Policy)
    ensures Earn(Elapsed([]), p.tokensPerMinute) == 0
  {
  }

  /** The first step of a run, and what holds for the rest of it. */
  lemma SpendStep(p: Policy, s: Db, used: set<Id>, es: seq<Event>)
    requires es != [] && InSync(p, s) && Inv(p, s) && Synced(s.clock, es)
    requires Known(s, used) && FreshIds(used, es) && ShallowRun(p, s, es)
    ensures var t, l := Step(p, s, es[0]).0, StepLedger(p, s, es[0]);
      Tokens(p, t) + Total(t.holds) * GRAIN + l.charged
      <= Tokens(p, s) + Total(s.holds) * GRAIN + Earn(Elapsed([es[0]]), p.tokensPerMinute)
    ensures var t, used' := Step(p, s, es[0]).0, used + Named(es[0]);
      && InSync(p, t) && Inv(p, t) && Synced(t.clock, es[1..])
      && Known(t, used') && FreshIds(used', es[1..]) && ShallowRun(p, t, es[1..])
    ensures Elapsed(es) == Elapsed([es[0]]) + Elapsed(es[1..])
  {
    hide Step, StepLedger, Tokens, InSync, Shallow, Inv, Earn, Total, Synced;
    SyncedHead(s.clock, es);
    StepInSync(p, s, es[0]);
    StepTokens(p, s, es[0]);
    StepInv(p, s, es[0]);
    StepKnown(p, s, used, es[0]);
  }

  lemma StepRequests(p: Policy, s: Db, e: Event)
    requires InSync(p, s) && Inv(p, s) && Synced(s.clock, [e])
    ensures Requests(p, Step(p, s, e).0) + Admissions(p, s, [e]) * GRAIN
         <= Requests(p, s) + Earn(Elapsed([e]), p.requestsPerMinute)
    ensures Admissions(p, s, [e]) == if e.Reserve? && Step(p, s, e).1.verdict.Admit? then 1 else 0
  {
    assert Admissions(p, s, [e]) == if e.Reserve? && Step(p, s, e).1.verdict.Admit? then 1 else 0;
    if e.Tick? {
      MulMonotone(GRAIN, p.TtlMs(), p.requestsPerMinute);
      TickReadable(s.rpm, s.rpmUntil, s.clock, e.ms, p.requestsPerMinute, p.TtlMs(), p.RequestCap());
    } else {
      RefillRange(s.rpm, e.now, p.requestsPerMinute, p.RequestCap());
      assert Elapsed([e]) == 0;
      EarnZero(p.requestsPerMinute);
      WriteRequests(p, s, e);
    }
  }

  lemma WriteRequests(p: Policy, s: Db, e: Event)
    requires Inv(p, s) && !e.Tick? && e.now == s.clock
    ensures Requests(p, Step(p, s, e).0) + (if e.Reserve? && Step(p, s, e).1.verdict.Admit? then GRAIN else 0)
         <= Requests(p, s)
  {
    hide Step, Due, HeldBy, VerdictOf, Observe;
    if e.Reserve? {
      ReserveShape(p, s, e);
      RefillRange(s.rpm, e.now, p.requestsPerMinute, p.RequestCap());
      WrittenReadable(Step(p, s, e).0.rpm.value.bal, e.now, p.requestsPerMinute, p.RequestCap());
    } else if e.Commit? {
      CommitShape(p, s, e);
    } else {
      TickOrSnapshotShape(p, s, e);
    }
  }

  /** Requests left and requests admitted are covered by what was there and the time that passed. */
  lemma {:induction false} RequestsWithinRate(p: Policy, s: Db, es: seq<Event>)
    requires InSync(p, s) && Inv(p, s) && Synced(s.clock, es)
    ensures Requests(p, Run(p, s, es)) + Admissions(p, s, es) * GRAIN
         <= Requests(p, s) + Earn(Elapsed(es), p.requestsPerMinute)
    decreases |es|
  {
    hide Step, Inv, InSync, Requests, Earn, Synced;
    EarnZero(p.requestsPerMinute);
    if es != [] {
      SyncedHead(s.clock, es);
      StepInSync(p, s, es[0]);
      StepRequests(p, s, es[0]);
      StepInv(p, s, es[0]);
      var t := Step(p, s, es[0]).0;
      RequestsWithinRate(p, t, es[1..]);
      assert Admissions(p, s, es) == Admissions(p, s, [es[0]]) + Admissions(p, t, es[1..]);
      EarnAdds(Elapsed([es[0]]), Elapsed(es[1..]), p.requestsPerMinute);
    }
  }
}
