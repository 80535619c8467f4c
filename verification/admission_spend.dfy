/** What a tenant can be charged and admitted, with gateway clocks that differ and keys that expire. */
module AdmissionSpend {
  import opened Basics
  import opened LeaseIndex
  import opened Budgets
  import opened Estimator
  import opened Admission
  import opened AdmissionLedger
  import opened AdmissionBounds
  import opened AdmissionReads

  // ----- A budget whose key may have gone -----

  /** The clocks differ by little enough that a lost key has had a minute of forward movement since its last write. */
  predicate Close(p: Policy, skew: nat) {
    2 * skew + 60000 <= p.TtlMs()
  }

  /** `kept` is the budget as last written: still stored, or gone a whole lifetime after the write. */
  ghost predicate Trails(b: Option<Bucket>, until: int, kept: Option<Bucket>, clock: int, skew: nat, ttl: nat) {
    && (b.Some? ==> kept == b && b.value.ts - skew + ttl <= until)
    && (b.None? && kept.Some? ==> kept.value.ts - skew + ttl <= clock)
  }

  /** The budget as last written, with what the gateway clocks have earned it since. */
  function Worth(kept: Option<Bucket>, last: Option<int>, rate: nat, cap: int): int {
    Stored(kept, cap)
    + Earn(if kept.Some? && last.Some? then Max(0, last.value - kept.value.ts) else 0, rate)
  }

  function Moved(last: Option<int>, now: int): nat {
    if last.None? then 0 else Max(0, now - last.value)
  }

  /** What a read finds, gone key or not, has been paid for by the last write and forward movement. */
  lemma ReadIsWorth(
    b: Option<Bucket>, until: int, kept: Option<Bucket>, last: Option<int>,
    clock: int, now: int, skew: nat, ttl: nat, rate: nat, cap: int)
    requires Trails(b, until, kept, clock, skew, ttl) && clock - skew <= now
    requires 2 * skew + 60000 <= ttl && cap == Earn(60000, rate)
    requires kept.Some? ==> last.Some? && 0 <= kept.value.bal
    ensures Stored(b, cap) + Accrual(b, now, rate) <= Worth(kept, last, rate, cap) + Earn(Moved(last, now), rate)
  {
    EarnZero(rate);
    EarnMonotone(0, Moved(last, now), rate);
    if kept.Some? {
      var due, rest := Max(0, last.value - kept.value.ts), Moved(last, now);
      EarnAdds(due, rest, rate);
      if b.Some? {
        EarnMonotone(Max(0, now - kept.value.ts), due + rest, rate);
        assert Accrual(b, now, rate) == Earn(Max(0, now - kept.value.ts), rate);
      } else {
        EarnMonotone(60000, due + rest, rate);
      }
    }
  }

  /** Looking at the clock without writing costs nothing. */
  lemma LookIsPaid(kept: Option<Bucket>, last: Option<int>, now: int, rate: nat, cap: int)
    requires kept.Some? ==> last.Some?
    ensures Worth(kept, Some(now), rate, cap) <= Worth(kept, last, rate, cap) + Earn(Moved(last, now), rate)
  {
    EarnMonotone(0, Moved(last, now), rate);
    EarnZero(rate);
    if kept.Some? {
      var due, rest := Max(0, last.value - kept.value.ts), Moved(last, now);
      EarnAdds(due, rest, rate);
      EarnMonotone(Max(0, now - kept.value.ts), due + rest, rate);
    }
  }

  lemma JustWritten(bal: int, now: int, rate: nat, cap: int)
    ensures Worth(Some(Bucket(bal, now)), Some(now), rate, cap) == bal
  {
    EarnZero(rate);
  }

  lemma TickTrails(b: Option<Bucket>, until: int, kept: Option<Bucket>, clock: int, ms: nat, skew: nat, ttl: nat)
    requires Trails(b, until, kept, clock, skew, ttl)
    ensures Trails(if until <= clock + ms then None else b, until, kept, clock + ms, skew, ttl)
  {
  }

  // ----- Tokens -----

  /** The token budget trails its last write, and is not in debt. */
  ghost predicate TokensTrail(p: Policy, s: Db, kept: Option<Bucket>, last: Option<int>, skew: nat) {
    && Trails(s.tpm, s.tpmUntil, kept, s.clock, skew, p.TtlMs())
    && (kept.Some? ==> last.Some? && 0 <= kept.value.bal)
  }

  function LastSeen(last: Option<int>, e: Event): Option<int> {
    if e.Tick? then last else Some(e.now)
  }

  function LastTokens(p: Policy, s: Db, kept: Option<Bucket>, e: Event): Option<Bucket> {
    if Writes(s, e) then Step(p, s, e).0.tpm else kept
  }

  lemma WrittenUntil(p: Policy, s: Db, e: Event)
    requires Writes(s, e)
    ensures Step(p, s, e).0.tpmUntil == s.clock + p.TtlMs() && Step(p, s, e).0.clock == s.clock
  {
    hide Step, VerdictOf, Holding, CurrentBalance, Observe, Refill, HeldBy, Due;
    if e.Reserve? {
      ReserveShape(p, s, e);
    } else {
      CommitShape(p, s, e);
    }
  }

  lemma MinuteOfTokens(p: Policy)
    ensures p.TokenCap() == Earn(60000, p.tokensPerMinute)
  {
  }

  lemma WriteSpends(p: Policy, s: Db, kept: Option<Bucket>, last: Option<int>, e: Event, skew: nat)
    requires Writes(s, e) && Skewed(s.clock, [e], skew) && Close(p, skew)
    requires TokensTrail(p, s, kept, last, skew) && Inv(p, s) && (e.Reserve? ==> e.id !in s.holds)
    requires Debt(p, Step(p, s, e).0) == 0
    ensures var t, l := Step(p, s, e).0, StepLedger(p, s, e);
      && TokensTrail(p, t, t.tpm, Some(e.now), skew)
      && Worth(t.tpm, Some(e.now), p.tokensPerMinute, p.TokenCap()) + Total(t.holds) * GRAIN + l.charged
         <= Worth(kept, last, p.tokensPerMinute, p.TokenCap()) + Total(s.holds) * GRAIN
            + Earn(Moved(last, e.now), p.tokensPerMinute)
  {
    hide Step, StepLedger, Earn, Worth, Total, Accrual, Policy.TokenCap;
    var t := Step(p, s, e).0;
    StepConserves(p, s, e);
    StepLedgerNonNegative(p, s, e);
    WriteShape(p, s, e);
    WrittenUntil(p, s, e);
    MinuteOfTokens(p);
    ReadIsWorth(s.tpm, s.tpmUntil, kept, last, s.clock, e.now, skew, p.TtlMs(), p.tokensPerMinute, p.TokenCap());
    JustWritten(t.tpm.value.bal, e.now, p.tokensPerMinute, p.TokenCap());
  }

  lemma OtherSpends(p: Policy, s: Db, kept: Option<Bucket>, last: Option<int>, e: Event, skew: nat)
    requires !Writes(s, e) && TokensTrail(p, s, kept, last, skew)
    ensures var t, l := Step(p, s, e).0, StepLedger(p, s, e);
      && TokensTrail(p, t, kept, LastSeen(last, e), skew)
      && Worth(kept, LastSeen(last, e), p.tokensPerMinute, p.TokenCap()) + Total(t.holds) * GRAIN + l.charged
         <= Worth(kept, last, p.tokensPerMinute, p.TokenCap()) + Total(s.holds) * GRAIN
            + Earn(if e.Tick? then 0 else Moved(last, e.now), p.tokensPerMinute)
  {
    hide Worth, Earn, Policy.TokenCap;
    OtherShape(p, s, e);
    EarnZero(p.tokensPerMinute);
    if e.Tick? {
      TickTrails(s.tpm, s.tpmUntil, kept, s.clock, e.ms, skew, p.TtlMs());
    } else {
      LookIsPaid(kept, last, e.now, p.tokensPerMinute, p.TokenCap());
    }
  }

  lemma StepSpends(p: Policy, s: Db, kept: Option<Bucket>, last: Option<int>, e: Event, skew: nat)
    requires Skewed(s.clock, [e], skew) && Close(p, skew)
    requires TokensTrail(p, s, kept, last, skew) && Inv(p, s) && (e.Reserve? ==> e.id !in s.holds)
    requires Debt(p, Step(p, s, e).0) == 0
    ensures var t, l, kept', last' := Step(p, s, e).0, StepLedger(p, s, e), LastTokens(p, s, kept, e), LastSeen(last, e);
      && TokensTrail(p, t, kept', last', skew)
      && Worth(kept', last', p.tokensPerMinute, p.TokenCap()) + Total(t.holds) * GRAIN + l.charged
         <= Worth(kept, last, p.tokensPerMinute, p.TokenCap()) + Total(s.holds) * GRAIN
            + Earn(Forward(last, [e]), p.tokensPerMinute)
  {
    hide Step, StepLedger, TokensTrail, Worth, Earn, Inv, Debt, Total, Policy.TokenCap;
    assert Forward(last, [e]) == if e.Tick? then 0 else Moved(last, e.now);
    if Writes(s, e) {
      WriteSpends(p, s, kept, last, e, skew);
    } else {
      OtherSpends(p, s, kept, last, e, skew);
    }
  }

  lemma SkewedHead(clock: int, es: seq<Event>, skew: nat)
    requires es != [] && Skewed(clock, es, skew)
    ensures Skewed(clock, [es[0]], skew) && Skewed(clock + (if es[0].Tick? then es[0].ms else 0), es[1..], skew)
  {
  }

  lemma StepClock(p: Policy, s: Db, e: Event)
    ensures Step(p, s, e).0.clock == s.clock + (if e.Tick? then e.ms else 0)
  {
    hide Decide, PredictedWait, Refill, HeldBy, Due, Observe, Prepare;
  }

  lemma WorthNatural(kept: Option<Bucket>, last: Option<int>, rate: nat, cap: nat)
    requires kept.Some? ==> 0 <= kept.value.bal
    ensures 0 <= Worth(kept, last, rate, cap)
  {
    EarnZero(rate);
    EarnMonotone(0, if kept.Some? && last.Some? then Max(0, last.value - kept.value.ts) else 0, rate);
  }

  /** Charges are paid for by what was there and forward movement, as long as the tenant is honest. */
  lemma {:induction false} SpendWithinForward(
    p: Policy, s: Db, used: set<Id>, decl: Declarations, kept: Option<Bucket>, last: Option<int>, es: seq<Event>,
    skew: nat)
    requires p.mode == WorstCase && HoldsDeclared(s, decl) && Debt(p, s) == 0 && Inv(p, s)
    requires Known(s, used) && FreshIds(used, es) && Honest(p, s, decl, es)
    requires Skewed(s.clock, es, skew) && Close(p, skew) && TokensTrail(p, s, kept, last, skew)
    ensures RunLedger(p, s, es).charged
         <= Worth(kept, last, p.tokensPerMinute, p.TokenCap()) + Total(s.holds) * GRAIN
            + Earn(Forward(last, es), p.tokensPerMinute)
    decreases |es|
  {
    hide Step, StepLedger, TokensTrail, Worth, Earn, Inv, Debt, Total, Policy.TokenCap, Skewed, Close, LastTokens, Known;
    if es == [] {
      SpendNothingMore(p, s, kept, last, skew);
    } else {
      var e, t := es[0], Step(p, s, es[0]).0;
      SpendStepFacts(p, s, used, decl, es, skew);
      StepSpends(p, s, kept, last, e, skew);
      var kept', last' := LastTokens(p, s, kept, e), LastSeen(last, e);
      SpendWithinForward(p, t, used + Named(e), Declare(decl, e), kept', last', es[1..], skew);
      ForwardHead(last, es);
      EarnAdds(Forward(last, [e]), Forward(last', es[1..]), p.tokensPerMinute);
    }
  }

  lemma SpendNothingMore(p: Policy, s: Db, kept: Option<Bucket>, last: Option<int>, skew: nat)
    requires TokensTrail(p, s, kept, last, skew)
    ensures 0 <= Worth(kept, last, p.tokensPerMinute, p.TokenCap()) + Total(s.holds) * GRAIN
                 + Earn(Forward(last, []), p.tokensPerMinute)
  {
    WorthNatural(kept, last, p.tokensPerMinute, p.TokenCap());
    EarnZero(p.tokensPerMinute);
  }

  lemma ForwardHead(last: Option<int>, es: seq<Event>)
    requires es != []
    ensures Forward(last, es) == Forward(last, [es[0]]) + Forward(LastSeen(last, es[0]), es[1..])
  {
  }

  /** What the first step of an honest run leaves for the rest. */
  lemma SpendStepFacts(p: Policy, s: Db, used: set<Id>, decl: Declarations, es: seq<Event>, skew: nat)
    requires es != [] && p.mode == WorstCase && HoldsDeclared(s, decl) && Debt(p, s) == 0 && Inv(p, s)
    requires Known(s, used) && FreshIds(used, es) && Honest(p, s, decl, es) && Skewed(s.clock, es, skew)
    ensures var e, t := es[0], Step(p, s, es[0]).0;
      && HoldsDeclared(t, Declare(decl, e)) && Debt(p, t) == 0 && Inv(p, t)
      && Known(t, used + Named(e)) && Skewed(s.clock, [e], skew) && Skewed(t.clock, es[1..], skew)
      && FreshIds(used + Named(e), es[1..]) && Honest(p, t, Declare(decl, e), es[1..])
      && (e.Reserve? ==> e.id !in s.holds)
  {
    hide Step, Debt, Inv, Skewed;
    SkewedHead(s.clock, es, skew);
    StepClock(p, s, es[0]);
    StepDebt(p, s, es[0]);
    StepHoldsDeclared(p, s, decl, es[0]);
    StepKnown(p, s, used, es[0]);
    StepInv(p, s, es[0]);
  }

  /**
   * Spend bound. From an empty store, with worst-case reservations and commits
   * that keep to their declarations and arrive in time, the tenant is never in
   * debt and all tokens charged are at most one minute's limit plus the rate
   * times the forward movement of the gateway clocks, for any number of
   * replicas, clocks that jump within `skew` of the Redis clock, and budget keys
   * that expire.
   */
  lemma SpendBound(p: Policy, clock: int, es: seq<Event>, skew: nat)
    requires p.mode == WorstCase && FreshIds({}, es) && Honest(p, Empty(clock), map[], es)
    requires Skewed(clock, es, skew) && Close(p, skew)
    ensures Debt(p, Run(p, Empty(clock), es)) == 0
    ensures RunLedger(p, Empty(clock), es).charged <= p.TokenCap() + Forward(None, es) * p.tokensPerMinute
  {
    hide RunLedger, Run, Honest, FreshIds, Skewed, Inv, Close, Forward;
    EmptyInv(p, clock);
    HonestNeverInDebt(p, Empty(clock), {}, map[], es);
    SpendWithinForward(p, Empty(clock), {}, map[], None, None, es, skew);
  }

  // ----- How close the clocks have to be -----

  /**
   * The whole limit granted and used, a key lifetime later granted and used
   * again, by clocks first fast and then slow. Each is one request, which the
   * routes accept for limits up to ten million tokens.
   */
  function TwoLimits(p: Policy, skew: nat): seq<Event> {
    var limit, late := p.tokensPerMinute, p.TtlMs() - skew;
    [Reserve(skew, 0, limit, 0.0, 0, 0), Commit(skew, 0, 0, limit, 0), Tick(p.TtlMs()),
     Reserve(late, 0, limit, 0.0, 1, 0), Commit(late, 1, 0, limit, 0)]
  }

  /** On a store without budgets or leases the whole limit is granted, and used. */
  lemma GrantIsWhole(p: Policy, s: Db, now: int, id: Id)
    requires p.mode == WorstCase && s.tpm == None && s.rpm == None && s.leases == map[] && s.holds == map[]
    ensures var t := Step(p, s, Reserve(now, 0, p.tokensPerMinute, 0.0, id, 0)).0;
      && t.holds == map[id := p.tokensPerMinute] && t.leases.Keys == {id}
      && t.settled == s.settled && t.clock == s.clock && t.tpmUntil == t.rpmUntil == s.clock + p.TtlMs()
  {
    var e := Reserve(now, 0, p.tokensPerMinute, 0.0, id, 0);
    NothingDue(s.leases, now);
    ReserveShape(p, s, e);
    PrepareUnswept(p, s, now);
    MulMonotone(1, p.requestsPerMinute, GRAIN);
    hide Step, Prepare, Due;
  }

  lemma UseIsWhole(p: Policy, s: Db, now: int, id: Id)
    requires s.holds == map[id := p.tokensPerMinute] && s.leases.Keys == {id} && id !in s.settled
    ensures var c := Commit(now, id, 0, p.tokensPerMinute, 0); var t := Step(p, s, c).0;
      && t.holds == map[] && t.leases == map[] && t.settled.Keys == s.settled.Keys + {id}
      && t.clock == s.clock && t.tpmUntil == s.clock + p.TtlMs() && t.rpmUntil == s.rpmUntil
      && StepLedger(p, s, c).charged == p.TokenCap()
  {
    hide CurrentBalance, Observe, Refill, Accrual;
    CommitShape(p, s, Commit(now, id, 0, p.tokensPerMinute, 0));
  }

  lemma FiveCharges(p: Policy, s: Db, a: Event, b: Event, c: Event, d: Event, e: Event)
    ensures var s1 := Step(p, s, a).0; var s2 := Step(p, s1, b).0; var s3 := Step(p, s2, c).0; var s4 := Step(p, s3, d).0;
      RunLedger(p, s, [a, b, c, d, e]).charged
      == StepLedger(p, s, a).charged + StepLedger(p, s1, b).charged + StepLedger(p, s2, c).charged
         + StepLedger(p, s3, d).charged + StepLedger(p, s4, e).charged
  {
    hide Step, StepLedger;
    var s1 := Step(p, s, a).0;
    var s2 := Step(p, s1, b).0;
    var s3 := Step(p, s2, c).0;
    var s4 := Step(p, s3, d).0;
    assert [a, b, c, d, e][1..] == [b, c, d, e] && [b, c, d, e][1..] == [c, d, e] && [c, d, e][1..] == [d, e];
    assert [d, e][1..] == [e] && [e][1..] == [];
    assert RunLedger(p, s4, [e]) == StepLedger(p, s4, e).Plus(ZERO);
    assert RunLedger(p, s3, [d, e]) == StepLedger(p, s3, d).Plus(RunLedger(p, s4, [e]));
    assert RunLedger(p, s2, [c, d, e]) == StepLedger(p, s2, c).Plus(RunLedger(p, s3, [d, e]));
    assert RunLedger(p, s1, [b, c, d, e]) == StepLedger(p, s1, b).Plus(RunLedger(p, s2, [c, d, e]));
  }

  lemma TailsOfFive(a: Event, b: Event, c: Event, d: Event, e: Event)
    ensures [a, b, c, d, e][1..] == [b, c, d, e] && [b, c, d, e][1..] == [c, d, e] && [c, d, e][1..] == [d, e]
    ensures [d, e][1..] == [e] && [e][1..] == []
  {
  }

  lemma OnlyCommitsCharge(p: Policy, s: Db, e: Event)
    requires !e.Commit?
    ensures StepLedger(p, s, e).charged == 0
  {
  }

  /** A key lifetime after the last reserve and commit, both budgets are gone. */
  lemma LifetimeClears(p: Policy, s: Db)
    requires s.tpmUntil == s.rpmUntil == s.clock + p.TtlMs() && s.leases == map[] && s.holds == map[]
    ensures var t := Step(p, s, Tick(p.TtlMs())).0;
      && t.tpm == None && t.rpm == None && t.leases == map[] && t.holds == map[]
      && t.settled.Keys <= s.settled.Keys
  {
  }

  /** Two grants and two uses, one key lifetime apart, from any store without budgets and leases. */
  lemma TwoLimitsSteps(p: Policy, skew: nat)
    requires p.mode == WorstCase
    ensures var es := TwoLimits(p, skew);
      var s1 := Step(p, Empty(0), es[0]).0; var s2 := Step(p, s1, es[1]).0; var s3 := Step(p, s2, es[2]).0;
      var s4 := Step(p, s3, es[3]).0;
      && s1.holds == map[0 := p.tokensPerMinute] && 0 !in s1.settled
      && s4.holds == map[1 := p.tokensPerMinute] && 1 !in s4.settled
      && StepLedger(p, s1, es[1]).charged == p.TokenCap() && StepLedger(p, s4, es[4]).charged == p.TokenCap()
  {
    hide Step, StepLedger, Policy.TokenCap, Policy.TtlMs;
    var es := TwoLimits(p, skew);
    var s1 := Step(p, Empty(0), es[0]).0;
    var s2 := Step(p, s1, es[1]).0;
    var s3 := Step(p, s2, es[2]).0;
    GrantIsWhole(p, Empty(0), skew, 0);
    UseIsWhole(p, s1, skew, 0);
    LifetimeClears(p, s2);
    GrantIsWhole(p, s3, es[3].now, 1);
    UseIsWhole(p, Step(p, s3, es[3]).0, es[4].now, 1);
  }

  lemma TwoLimitsCharge(p: Policy, skew: nat)
    requires p.mode == WorstCase
    ensures RunLedger(p, Empty(0), TwoLimits(p, skew)).charged == 2 * p.TokenCap()
  {
    hide Step, StepLedger, RunLedger, Policy.TokenCap;
    var es := TwoLimits(p, skew);
    var s1 := Step(p, Empty(0), es[0]).0;
    var s2 := Step(p, s1, es[1]).0;
    var s3 := Step(p, s2, es[2]).0;
    TwoLimitsSteps(p, skew);
    FiveCharges(p, Empty(0), es[0], es[1], es[2], es[3], es[4]);
    OnlyCommitsCharge(p, Empty(0), es[0]);
    OnlyCommitsCharge(p, s2, es[2]);
    OnlyCommitsCharge(p, s3, es[3]);
  }

  lemma TwoLimitsHonest(p: Policy, skew: nat)
    requires p.mode == WorstCase
    ensures Honest(p, Empty(0), map[], TwoLimits(p, skew))
  {
    hide Step, StepLedger;
    var es, limit := TwoLimits(p, skew), p.tokensPerMinute;
    var s1 := Step(p, Empty(0), es[0]).0;
    var s2 := Step(p, s1, es[1]).0;
    var s3 := Step(p, s2, es[2]).0;
    var s4 := Step(p, s3, es[3]).0;
    TwoLimitsSteps(p, skew);
    TailsOfFive(es[0], es[1], es[2], es[3], es[4]);
    var d1: Declarations := map[0 := limit];
    var d4: Declarations := d1[1 := limit];
    assert Honest(p, s4, d4, [es[4]]);
    assert Honest(p, s3, d1, [es[3], es[4]]);
    assert Honest(p, s2, d1, [es[2], es[3], es[4]]);
    assert Honest(p, s1, d1, [es[1], es[2], es[3], es[4]]);
  }

  lemma TwoLimitsClocks(p: Policy, skew: nat)
    ensures var es := TwoLimits(p, skew);
      && FreshIds({}, es) && Skewed(0, es, skew) && Forward(None, es) == Max(0, p.TtlMs() - 2 * skew)
  {
    var es, ttl, late := TwoLimits(p, skew), p.TtlMs(), p.TtlMs() - skew;
    TailsOfFive(es[0], es[1], es[2], es[3], es[4]);
    assert Skewed(ttl, [es[4]], skew) && Skewed(ttl, [es[3], es[4]], skew) && Skewed(0, [es[2], es[3], es[4]], skew);
    assert Skewed(0, [es[1], es[2], es[3], es[4]], skew);
    assert Forward(Some(late), [es[4]]) == 0;
    assert Forward(Some(skew), [es[3], es[4]]) == Max(0, late - skew);
    assert Forward(Some(skew), [es[2], es[3], es[4]]) == Forward(Some(skew), [es[3], es[4]]);
    assert Forward(Some(skew), [es[1], es[2], es[3], es[4]]) == Forward(Some(skew), [es[2], es[3], es[4]]);
    assert FreshIds({0, 1}, [es[4]]) && FreshIds({0}, [es[3], es[4]]) && FreshIds({0}, [es[2], es[3], es[4]]) by {
      assert {0} + Named(es[3]) == {0, 1} && {0} + Named(es[2]) == {0};
    }
    assert FreshIds({0}, [es[1], es[2], es[3], es[4]]) by { assert {0} + Named(es[1]) == {0}; }
    assert {} + Named(es[0]) == {0};
  }

  /** A run the spend bound is about. */
  ghost predicate HonestRun(p: Policy, clock: int, es: seq<Event>, skew: nat) {
    FreshIds({}, es) && Honest(p, Empty(clock), map[], es) && Skewed(clock, es, skew)
  }

  ghost predicate PaidFor(p: Policy, clock: int, es: seq<Event>) {
    RunLedger(p, Empty(clock), es).charged <= p.TokenCap() + Forward(None, es) * p.tokensPerMinute
  }

  /**
   * How close the clocks have to be, exactly: every honest worst-case run with
   * clocks within `skew` of the Redis clock stays within one limit plus the rate
   * times forward movement if and only if a key lifetime is at least a minute
   * longer than twice the skew. Otherwise a key can go without the minute of
   * forward movement that would have refilled it.
   */
  lemma SpendBoundExactly(p: Policy, skew: nat)
    requires p.mode == WorstCase
    ensures (forall clock: int, es: seq<Event> :: HonestRun(p, clock, es, skew) ==> PaidFor(p, clock, es))
       <==> Close(p, skew)
  {
    if Close(p, skew) {
      forall clock: int, es: seq<Event> | HonestRun(p, clock, es, skew) ensures PaidFor(p, clock, es) {
        hide RunLedger, Run, Honest, FreshIds, Skewed, Close, Forward;
        SpendBound(p, clock, es, skew);
      }
    } else {
      hide RunLedger, Honest, FreshIds, Skewed, Forward, Policy.TokenCap;
      var es, moved := TwoLimits(p, skew), Max(0, p.TtlMs() - 2 * skew);
      TwoLimitsCharge(p, skew);
      TwoLimitsHonest(p, skew);
      TwoLimitsClocks(p, skew);
      MinuteOfTokens(p);
      MulMonotone(moved, 59999, p.tokensPerMinute);
      assert HonestRun(p, 0, es, skew) && !PaidFor(p, 0, es);
    }
  }

  // ----- One clock -----

  lemma {:induction false} SyncedIsSkewed(clock: int, es: seq<Event>)
    ensures Synced(clock, es) <==> Skewed(clock, es, 0)
    decreases |es|
  {
    if es != [] {
      SyncedIsSkewed(if es[0].Tick? then clock + es[0].ms else clock, es[1..]);
    }
  }

  /** Under one clock forward movement is at most the time that passed. */
  lemma {:induction false} ForwardWithinElapsed(clock: int, last: Option<int>, es: seq<Event>)
    requires Synced(clock, es) && (last.Some? ==> last.value <= clock)
    ensures Forward(last, es) <= Elapsed(es) + (if last.Some? then clock - last.value else 0)
    decreases |es|
  {
    if es != [] {
      var next := if es[0].Tick? then clock + es[0].ms else clock;
      ForwardWithinElapsed(next, LastSeen(last, es[0]), es[1..]);
    }
  }

  /** The spend bound under one clock: one limit plus the rate times the time that passed. */
  lemma SpendBoundInSync(p: Policy, clock: int, es: seq<Event>)
    requires p.mode == WorstCase && FreshIds({}, es) && Honest(p, Empty(clock), map[], es)
    requires Synced(clock, es)
    ensures Debt(p, Run(p, Empty(clock), es)) == 0
    ensures RunLedger(p, Empty(clock), es).charged <= p.TokenCap() + Elapsed(es) * p.tokensPerMinute
  {
    hide Run, RunLedger, Honest, FreshIds, Synced, Skewed, Elapsed, Forward;
    SyncedIsSkewed(clock, es);
    ForwardWithinElapsed(clock, None, es);
    MulMonotone(Forward(None, es), Elapsed(es), p.tokensPerMinute);
    SpendBound(p, clock, es, 0);
  }

  // ----- Requests -----

  ghost predicate RequestsTrail(p: Policy, s: Db, kept: Option<Bucket>, last: Option<int>, skew: nat) {
    && Trails(s.rpm, s.rpmUntil, kept, s.clock, skew, p.TtlMs())
    && (kept.Some? ==> last.Some? && 0 <= kept.value.bal)
  }

  lemma MinuteOfRequests(p: Policy)
    ensures p.RequestCap() == Earn(60000, p.requestsPerMinute)
  {
  }

  lemma StepAdmits(p: Policy, s: Db, kept: Option<Bucket>, last: Option<int>, e: Event, skew: nat)
    requires Skewed(s.clock, [e], skew) && Close(p, skew) && RequestsTrail(p, s, kept, last, skew) && Inv(p, s)
    ensures var t, kept', last' := Step(p, s, e).0, if e.Reserve? then Step(p, s, e).0.rpm else kept, LastSeen(last, e);
      && RequestsTrail(p, t, kept', last', skew)
      && Worth(kept', last', p.requestsPerMinute, p.RequestCap())
         + (if e.Reserve? && Step(p, s, e).1.verdict.Admit? then GRAIN else 0)
         <= Worth(kept, last, p.requestsPerMinute, p.RequestCap()) + Earn(Forward(last, [e]), p.requestsPerMinute)
  {
    hide Step, Earn, Worth, Policy.RequestCap, VerdictOf, Holding, CurrentBalance, Observe, Due, HeldBy, Accrual;
    var rate, cap := p.requestsPerMinute, p.RequestCap();
    assert Forward(last, [e]) == if e.Tick? then 0 else Moved(last, e.now);
    EarnZero(rate);
    if e.Reserve? {
      ReserveShape(p, s, e);
      PrepareInv(p, s, e.now);
      StepInv(p, s, e);
      MinuteOfRequests(p);
      ReadIsWorth(s.rpm, s.rpmUntil, kept, last, s.clock, e.now, skew, p.TtlMs(), rate, cap);
      RefillWithinAccrual(s.rpm, e.now, rate, cap);
      JustWritten(Step(p, s, e).0.rpm.value.bal, e.now, rate, cap);
    } else if e.Tick? {
      TickOrSnapshotShape(p, s, e);
      TickTrails(s.rpm, s.rpmUntil, kept, s.clock, e.ms, skew, p.TtlMs());
    } else {
      if e.Commit? {
        CommitShape(p, s, e);
      } else {
        TickOrSnapshotShape(p, s, e);
      }
      LookIsPaid(kept, last, e.now, rate, cap);
    }
  }

  lemma RefillWithinAccrual(b: Option<Bucket>, now: int, rate: nat, cap: int)
    ensures Refill(b, now, rate, cap) <= Stored(b, cap) + Accrual(b, now, rate)
  {
    SettleLedger(b, now, rate, cap, 0);
  }

  lemma {:induction false} AdmitWithinForward(
    p: Policy, s: Db, kept: Option<Bucket>, last: Option<int>, es: seq<Event>, skew: nat)
    requires Skewed(s.clock, es, skew) && Close(p, skew) && RequestsTrail(p, s, kept, last, skew) && Inv(p, s)
    ensures Admissions(p, s, es) * GRAIN
         <= Worth(kept, last, p.requestsPerMinute, p.RequestCap()) + Earn(Forward(last, es), p.requestsPerMinute)
    decreases |es|
  {
    hide Step, RequestsTrail, Worth, Earn, Inv, Policy.RequestCap, Skewed, Close;
    if es == [] {
      AdmitNothingMore(p, s, kept, last, skew);
    } else {
      var e, t := es[0], Step(p, s, es[0]).0;
      SkewedHead(s.clock, es, skew);
      StepClock(p, s, e);
      StepInv(p, s, e);
      StepAdmits(p, s, kept, last, e, skew);
      var kept', last' := if e.Reserve? then t.rpm else kept, LastSeen(last, e);
      AdmitWithinForward(p, t, kept', last', es[1..], skew);
      ForwardHead(last, es);
      EarnAdds(Forward(last, [e]), Forward(last', es[1..]), p.requestsPerMinute);
    }
  }

  lemma AdmitNothingMore(p: Policy, s: Db, kept: Option<Bucket>, last: Option<int>, skew: nat)
    requires RequestsTrail(p, s, kept, last, skew)
    ensures 0 <= Worth(kept, last, p.requestsPerMinute, p.RequestCap()) + Earn(Forward(last, []), p.requestsPerMinute)
  {
    WorthNatural(kept, last, p.requestsPerMinute, p.RequestCap());
    EarnZero(p.requestsPerMinute);
  }

  /**
   * Requests admitted, by any tenant, are at most one minute's limit plus the
   * rate times the forward movement of the gateway clocks.
   */
  lemma RequestRateBound(p: Policy, clock: int, es: seq<Event>, skew: nat)
    requires Skewed(clock, es, skew) && Close(p, skew)
    ensures Admissions(p, Empty(clock), es) * GRAIN <= p.RequestCap() + Forward(None, es) * p.requestsPerMinute
  {
    hide Admissions, Skewed, Inv, Close, Forward;
    EmptyInv(p, clock);
    AdmitWithinForward(p, Empty(clock), None, None, es, skew);
  }

  /** Under one clock, plus the rate times the time that passed. */
  lemma RequestRateBoundInSync(p: Policy, clock: int, es: seq<Event>)
    requires Synced(clock, es)
    ensures Admissions(p, Empty(clock), es) * GRAIN <= p.RequestCap() + Elapsed(es) * p.requestsPerMinute
  {
    hide Admissions, Synced, Skewed, Elapsed, Forward;
    SyncedIsSkewed(clock, es);
    ForwardWithinElapsed(clock, None, es);
    MulMonotone(Forward(None, es), Elapsed(es), p.requestsPerMinute);
    RequestRateBound(p, clock, es, 0);
  }
}
