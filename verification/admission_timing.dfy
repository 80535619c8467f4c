/** What polling cannot change, and when a shed request is worth retrying. */
module AdmissionTiming {
  import opened Basics
  import opened LeaseIndex
  import opened Budgets
  import opened Admission
  import opened AdmissionBounds
  import opened AdmissionStats

  /** The steps that write the balance come in time order, from `from` to at most `at`. */
  predicate Ordered(s: Db, p: Policy, from: int, es: seq<Event>, at: int)
    decreases |es|
  {
    && from <= at
    && (es != [] ==>
          var next := Step(p, s, es[0]).0;
          if Writes(s, es[0]) then from <= es[0].now && Ordered(next, p, es[0].now, es[1..], at)
          else Ordered(next, p, from, es[1..], at))
  }

  /** Only shed reserves, replays, snapshots, and time that does not outlive the budget key. */
  predicate OnlyPolls(p: Policy, s: Db, es: seq<Event>)
    decreases |es|
  {
    es != [] ==>
      var e := es[0];
      && (e.Reserve? ==> !Step(p, s, e).1.verdict.Admit?)
      && (e.Commit? ==> e.id in s.settled)
      && (e.Tick? ==> s.clock + e.ms < s.tpmUntil)
      && OnlyPolls(p, Step(p, s, e).0, es[1..])
  }

  /** Tokens handed back by the sweeps of the run. */
  function Reclaimed(p: Policy, s: Db, es: seq<Event>): nat
    decreases |es|
  {
    if es == [] then 0
    else
      (if es[0].Reserve? then HeldBy(s.holds, Due(s.leases, es[0].now, RECLAIM_BATCH)) else 0)
      + Reclaimed(p, Step(p, s, es[0]).0, es[1..])
  }

  /** The bucket a shed reserve leaves. */
  lemma PollBucket(p: Policy, s: Db, e: Event)
    requires e.Reserve? && !Step(p, s, e).1.verdict.Admit?
    ensures Step(p, s, e).0.tpm
         == Some(Bucket(Min(Refill(s.tpm, e.now, p.tokensPerMinute, p.TokenCap())
                            + HeldBy(s.holds, Due(s.leases, e.now, RECLAIM_BATCH)) * GRAIN, p.TokenCap()), e.now))
    ensures Step(p, s, e).0.rpm
         == Some(Bucket(Refill(s.rpm, e.now, p.requestsPerMinute, p.RequestCap()), e.now))
  {
    hide Step, VerdictOf, Refill, Due, HeldBy;
    ReserveShape(p, s, e);
  }

  lemma StaysPut(p: Policy, s: Db, e: Event)
    requires !e.Reserve? && (e.Commit? ==> e.id in s.settled) && (e.Tick? ==> s.clock + e.ms < s.tpmUntil)
    ensures Step(p, s, e).0.tpm == s.tpm
  {
  }

  /** One clamp after another is one clamp at the end, as long as everything added is positive. */
  lemma ClampsCompose(bal: int, a: nat, r: nat, b: nat, q: int, cap: int)
    requires 0 <= q
    ensures Min(Min(Min(bal + a, cap) + r, cap) + b + q, cap) == Min(bal + (a + b) + (r + q), cap)
  {
  }

  /**
   * Polling invariance: however many calls are shed, in time order, the balance
   * read at any later time is the starting balance plus the rate times the time
   * that passed plus everything the sweeps reclaimed, clamped once.
   */
  lemma {:induction false} PollingInvariance(p: Policy, s: Db, es: seq<Event>, at: int)
    requires s.tpm.Some? && OnlyPolls(p, s, es) && Ordered(s, p, s.tpm.value.ts, es, at)
    ensures Run(p, s, es).tpm.Some?
    ensures Refill(Run(p, s, es).tpm, at, p.tokensPerMinute, p.TokenCap())
         == Min(s.tpm.value.bal + Earn(at - s.tpm.value.ts, p.tokensPerMinute) + Reclaimed(p, s, es) * GRAIN, p.TokenCap())
    decreases |es|
  {
    hide Step, Due, HeldBy, Earn, Refill, Policy.TokenCap;
    var b, rate, cap := s.tpm.value, p.tokensPerMinute, p.TokenCap();
    if es == [] {
      RefillIsEarn(b, at, rate, cap);
    } else {
      var e, next := es[0], Step(p, s, es[0]).0;
      PollingInvariance(p, next, es[1..], at) by {
        if e.Reserve? { PollBucket(p, s, e); } else { StaysPut(p, s, e); }
      }
      if e.Reserve? {
        PollBucket(p, s, e);
        var back := HeldBy(s.holds, Due(s.leases, e.now, RECLAIM_BATCH));
        RefillIsEarn(b, e.now, rate, cap);
        EarnNatural(e.now - b.ts, rate);
        assert Ordered(next, p, e.now, es[1..], at);
        EarnNatural(at - e.now, rate);
        EarnAdds(e.now - b.ts, at - e.now, rate);
        ClampsCompose(b.bal, Earn(e.now - b.ts, rate), back * GRAIN, Earn(at - e.now, rate),
                      Reclaimed(p, next, es[1..]) * GRAIN, cap);
      } else {
        StaysPut(p, s, e);
      }
    }
  }

  lemma RefillIsEarn(b: Bucket, at: int, rate: nat, cap: int)
    requires b.ts <= at
    ensures Refill(Some(b), at, rate, cap) == Min(b.bal + Earn(at - b.ts, rate), cap)
  {
  }

  lemma EarnNatural(ms: nat, rate: nat)
    ensures 0 <= Earn(ms, rate)
  {
    MulMonotone(0, ms, rate);
  }

  // ----- Retry-After -----

  /** The Retry-After of a shed request; none when retrying cannot help. */
  function RetryAfterSeconds(v: Verdict): Option<int> {
    if v.Shed? && v.retryAfterMs > 0 then Some(WholeSeconds(v.retryAfterMs)) else None
  }

  /** The service average is never negative: its samples are not. */
  ghost predicate ServiceNatural(s: Db) {
    s.stats.service.Some? ==> 0.0 < s.stats.service.value
  }

  lemma {:induction false} RunServiceNatural(p: Policy, s: Db, es: seq<Event>)
    requires ServiceNatural(s)
    ensures ServiceNatural(Run(p, s, es))
    decreases |es|
  {
    hide Step;
    if es != [] {
      StepStats(p, s, es[0]);
      RunServiceNatural(p, Step(p, s, es[0]).0, es[1..]);
    }
  }

  /**
   * After any run, a shed request carries a Retry-After exactly when waiting can
   * help: always, except when the request exceeds the whole budget. The seconds cover the
   * milliseconds the script computed.
   */
  lemma RetryAfterUnlessUnsatisfiable(p: Policy, clock: int, es: seq<Event>, e: Event)
    requires e.Reserve? && Step(p, Run(p, Empty(clock), es), e).1.verdict.Shed?
    ensures var v := Step(p, Run(p, Empty(clock), es), e).1.verdict;
      && (RetryAfterSeconds(v) == None <==> v.reason == Unsatisfiable)
      && (v.reason == Unsatisfiable <==> p.tokensPerMinute < Holding(p, e))
      && (v.reason != Unsatisfiable ==> v.retryAfterMs <= RetryAfterSeconds(v).value * 1000)
  {
    hide Step, PredictedWait, Prepare, Holding, Run;
    var s := Run(p, Empty(clock), es);
    RunServiceNatural(p, Empty(clock), es);
    ReserveShape(p, s, e);
    CeilPositive(ServiceEstimate(s));
  }

  lemma CeilPositive(x: real)
    requires 0.0 < x
    ensures 0 < Ceil(x)
  {
  }

  /** No admission, and no commit that uses more than it held. */
  predicate Quiet(p: Policy, s: Db, es: seq<Event>)
    decreases |es|
  {
    es != [] ==>
      var e := es[0];
      && (e.Reserve? ==> !Step(p, s, e).1.verdict.Admit?)
      && Overrun(p, s, e) == 0
      && Quiet(p, Step(p, s, e).0, es[1..])
  }

  lemma QuietCommitTokens(p: Policy, s: Db, e: Event, at: int, amount: int)
    requires e.Commit? && e.id !in s.settled && Overrun(p, s, e) == 0
    requires amount <= p.TokenCap() && amount <= Refill(s.tpm, at, p.tokensPerMinute, p.TokenCap())
    requires e.now <= at && (s.tpm.Some? ==> s.tpm.value.ts <= e.now)
    ensures amount <= Refill(Step(p, s, e).0.tpm, at, p.tokensPerMinute, p.TokenCap())
  {
    hide Step, Refill, Policy.TokenCap, Min;
    var held: nat := if e.id in s.holds then s.holds[e.id] else 0;
    var more: nat := held - e.prompt - e.output;
    CommitBucket(p, s, e);
    WriteMore(s.tpm, e.now, at, more * GRAIN, p.tokensPerMinute, p.TokenCap());
    MinIsLargest(amount, Refill(s.tpm, at, p.tokensPerMinute, p.TokenCap()), p.TokenCap());
  }

  lemma MinIsLargest(x: int, a: int, b: int)
    requires x <= a && x <= b
    ensures x <= Min(a, b)
  {
  }

  lemma QuietReserveTokens(p: Policy, s: Db, e: Event, at: int, amount: int)
    requires e.Reserve? && !Step(p, s, e).1.verdict.Admit?
    requires amount <= p.TokenCap() && amount <= Refill(s.tpm, at, p.tokensPerMinute, p.TokenCap())
    requires e.now <= at && (s.tpm.Some? ==> s.tpm.value.ts <= e.now)
    ensures amount <= Refill(Step(p, s, e).0.tpm, at, p.tokensPerMinute, p.TokenCap())
  {
    hide Step, Refill, Policy.TokenCap, Due, HeldBy;
    PollBucket(p, s, e);
    WriteMore(s.tpm, e.now, at, HeldBy(s.holds, Due(s.leases, e.now, RECLAIM_BATCH)) * GRAIN,
              p.tokensPerMinute, p.TokenCap());
  }

  /** A quiet step never lowers what can be read later. */
  lemma QuietStepTokens(p: Policy, s: Db, e: Event, at: int, amount: int)
    requires amount <= p.TokenCap() && amount <= Refill(s.tpm, at, p.tokensPerMinute, p.TokenCap())
    requires (e.Reserve? ==> !Step(p, s, e).1.verdict.Admit?) && Overrun(p, s, e) == 0
    requires Writes(s, e) ==> e.now <= at && (s.tpm.Some? ==> s.tpm.value.ts <= e.now)
    ensures amount <= Refill(Step(p, s, e).0.tpm, at, p.tokensPerMinute, p.TokenCap())
  {
    hide Step, Refill, Overrun;
    if e.Reserve? {
      QuietReserveTokens(p, s, e, at, amount);
    } else if Writes(s, e) {
      QuietCommitTokens(p, s, e, at, amount);
    } else {
      OtherShape(p, s, e);
      RefillNone(at, p.tokensPerMinute, p.TokenCap());
    }
  }

  /** Writing back what was read, or more, lowers no later reading. */
  lemma WriteMore(b: Option<Bucket>, now: int, at: int, more: nat, rate: nat, cap: int)
    requires now <= at && (b.Some? ==> b.value.ts <= now)
    ensures Min(Refill(b, at, rate, cap), cap)
         <= Refill(Some(Bucket(Min(Refill(b, now, rate, cap) + more, cap), now)), at, rate, cap)
  {
    MulMonotone(0, at - now, rate);
    if b.Some? {
      AccrueSplit(b.value.ts, now, at, rate);
    }
  }

  lemma {:induction false} QuietRunTokens(p: Policy, s: Db, from: int, es: seq<Event>, at: int, amount: int)
    requires amount <= p.TokenCap() && amount <= Refill(s.tpm, at, p.tokensPerMinute, p.TokenCap())
    requires s.tpm.Some? ==> s.tpm.value.ts <= from
    requires Quiet(p, s, es) && Ordered(s, p, from, es, at)
    ensures amount <= Refill(Run(p, s, es).tpm, at, p.tokensPerMinute, p.TokenCap())
    ensures from <= at
    decreases |es|
  {
    hide Step, Refill, Overrun;
    if es != [] {
      var e, next := es[0], Step(p, s, es[0]).0;
      var from' := if Writes(s, e) then e.now else from;
      if Writes(s, e) {
        WriteShape(p, s, e);
        OrderedBelow(next, p, e.now, es[1..], at);
      } else {
        OtherShape(p, s, e);
      }
      QuietStepTokens(p, s, e, at, amount);
      QuietRunTokens(p, next, from', es[1..], at, amount);
    }
  }

  lemma OrderedBelow(s: Db, p: Policy, from: int, es: seq<Event>, at: int)
    requires Ordered(s, p, from, es, at)
    ensures from <= at
  {
  }

  lemma CoveredNotTpm(p: Policy, s: Db, e: Event)
    requires e.Reserve? && Holding(p, e) <= p.tokensPerMinute
    requires Holding(p, e) * GRAIN <= Refill(s.tpm, e.now, p.tokensPerMinute, p.TokenCap())
    ensures Step(p, s, e).1.verdict.Shed? ==> !Step(p, s, e).1.verdict.reason.TpmExhausted?
  {
    hide Step, PredictedWait, Refill, HeldBy, Due, CeilDiv, Ceil;
    ReserveShape(p, s, e);
  }

  /** What a tpm shed leaves: the advertised delay is the first at which the hold is covered. */
  lemma TpmShedShape(p: Policy, s: Db, e: Event)
    requires e.Reserve? && Step(p, s, e).1.verdict.Shed? && Step(p, s, e).1.verdict.reason.TpmExhausted?
    ensures var t, ms := Step(p, s, e).0, Step(p, s, e).1.verdict.retryAfterMs;
      && Holding(p, e) <= p.tokensPerMinute && 0 < ms
      && t.tpm.Some? && t.tpm.value.ts == e.now
      && (forall at :: e.now <= at ==>
            (Holding(p, e) * GRAIN <= Refill(t.tpm, at, p.tokensPerMinute, p.TokenCap()) <==> e.now + ms <= at))
      && t.rpm.Some? && t.rpm.value.ts == e.now && GRAIN <= t.rpm.value.bal
  {
    hide PredictedWait, HeldBy, Due;
    var t, hold := Step(p, s, e).0, Holding(p, e) * GRAIN;
    PollBucket(p, s, e);
    assert Step(p, s, e) == ReserveStep(p, s, e.now, Holding(p, e), e.id, e.slo);
    var deficit := hold - t.tpm.value.bal;
    forall at | e.now <= at
      ensures hold <= Refill(t.tpm, at, p.tokensPerMinute, p.TokenCap())
         <==> e.now + Step(p, s, e).1.verdict.retryAfterMs <= at
    {
      LeastDelay(deficit, p.tokensPerMinute, at - e.now);
    }
  }

  /**
   * Retry-After is sound for tokens: after a tpm shed, if only shed calls and
   * commits within their holds intervene, the same request at or after the
   * advertised time is not shed for tokens again.
   */
  lemma TpmRetryIsSound(p: Policy, s: Db, e: Event, es: seq<Event>, retry: Event)
    requires e.Reserve? && Step(p, s, e).1.verdict.Shed? && Step(p, s, e).1.verdict.reason.TpmExhausted?
    requires retry.Reserve? && Holding(p, retry) == Holding(p, e)
    requires var t := Step(p, s, e).0; Quiet(p, t, es) && Ordered(t, p, e.now, es, retry.now)
    requires e.now + Step(p, s, e).1.verdict.retryAfterMs <= retry.now
    ensures var r := Step(p, Run(p, Step(p, s, e).0, es), retry).1;
      r.verdict.Shed? ==> !r.verdict.reason.TpmExhausted?
  {
    var t := Step(p, s, e).0;
    TpmShedShape(p, s, e);
    hide Step, Refill, Quiet;
    OrderedBelow(t, p, e.now, es, retry.now);
    QuietRunTokens(p, t, e.now, es, retry.now, Holding(p, e) * GRAIN);
    CoveredNotTpm(p, Run(p, t, es), retry);
  }

  /** With nothing in between and no lease falling due, the advertised delay is also the least one. */
  lemma TpmRetryIsLeast(p: Policy, s: Db, e: Event, retry: Event)
    requires e.Reserve? && Step(p, s, e).1.verdict.Shed? && Step(p, s, e).1.verdict.reason.TpmExhausted?
    requires retry.Reserve? && Holding(p, retry) == Holding(p, e) && e.now <= retry.now
    requires DueSet(Step(p, s, e).0.leases, retry.now) == {}
    ensures var r := Step(p, Step(p, s, e).0, retry).1;
      (r.verdict.Shed? && r.verdict.reason.TpmExhausted?) <==> retry.now < e.now + Step(p, s, e).1.verdict.retryAfterMs
  {
    hide Step, PredictedWait, Due, HeldBy, Prepare, CeilDiv, Ceil;
    var t := Step(p, s, e).0;
    TpmShedShape(p, s, e);
    assert GRAIN <= Refill(t.rpm, retry.now, p.requestsPerMinute, p.RequestCap()) by {
      MulMonotone(0, retry.now - e.now, p.requestsPerMinute);
      MulMonotone(1, p.requestsPerMinute, GRAIN);
    }
    RefillAtMost(t.tpm, retry.now, p.tokensPerMinute, p.TokenCap());
    UnsweptPrepare(p, t, retry.now);
    ReserveShape(p, t, retry);
  }

  lemma UnsweptPrepare(p: Policy, s: Db, now: int)
    requires DueSet(s.leases, now) == {}
    ensures Prepare(p, s, now).tpm == Refill(s.tpm, now, p.tokensPerMinute, p.TokenCap())
    ensures Prepare(p, s, now).rpm == Refill(s.rpm, now, p.requestsPerMinute, p.RequestCap())
  {
    RefillAtMost(s.tpm, now, p.tokensPerMinute, p.TokenCap());
    assert Due(s.leases, now, RECLAIM_BATCH) == [];
  }

  // ----- The same for requests -----

  /** No admission; commits do not touch the request budget at all. */
  predicate NoAdmission(p: Policy, s: Db, es: seq<Event>)
    decreases |es|
  {
    es != [] ==>
      && (es[0].Reserve? ==> !Step(p, s, es[0]).1.verdict.Admit?)
      && NoAdmission(p, Step(p, s, es[0]).0, es[1..])
  }

  lemma StepRequestBucket(p: Policy, s: Db, e: Event)
    requires e.Reserve? ==> !Step(p, s, e).1.verdict.Admit?
    ensures e.Reserve? ==>
      Step(p, s, e).0.rpm == Some(Bucket(Refill(s.rpm, e.now, p.requestsPerMinute, p.RequestCap()), e.now))
    ensures !e.Reserve? ==> Step(p, s, e).0.rpm == s.rpm || Step(p, s, e).0.rpm == None
  {
    if e.Reserve? {
      PollBucket(p, s, e);
    } else {
      hide Refill, Observe;
    }
  }

  lemma {:induction false} QuietRunRequests(p: Policy, s: Db, from: int, es: seq<Event>, at: int, amount: int)
    requires amount <= p.RequestCap() && amount <= Refill(s.rpm, at, p.requestsPerMinute, p.RequestCap())
    requires s.rpm.Some? ==> s.rpm.value.ts <= from
    requires NoAdmission(p, s, es) && Ordered(s, p, from, es, at)
    ensures amount <= Refill(Run(p, s, es).rpm, at, p.requestsPerMinute, p.RequestCap())
    decreases |es|
  {
    hide Step, Refill, Policy.RequestCap;
    if es != [] {
      var e, next := es[0], Step(p, s, es[0]).0;
      StepRequestBucket(p, s, e);
      var from' := if Writes(s, e) then e.now else from;
      if e.Reserve? {
        OrderedBelow(next, p, e.now, es[1..], at);
        WriteMore(s.rpm, e.now, at, 0, p.requestsPerMinute, p.RequestCap());
        RefillAtMost(s.rpm, e.now, p.requestsPerMinute, p.RequestCap());
      }
      RefillNone(at, p.requestsPerMinute, p.RequestCap());
      QuietRunRequests(p, next, from', es[1..], at, amount);
    }
  }

  lemma RefillNone(at: int, rate: nat, cap: int)
    ensures Refill(None, at, rate, cap) == cap
  {
  }

  lemma RefillAtMost(b: Option<Bucket>, now: int, rate: nat, cap: int)
    ensures Refill(b, now, rate, cap) <= cap
  {
  }

  lemma RpmShedShape(p: Policy, s: Db, e: Event)
    requires e.Reserve? && Step(p, s, e).1.verdict.Shed? && Step(p, s, e).1.verdict.reason.RpmExhausted?
    ensures var t, ms := Step(p, s, e).0, Step(p, s, e).1.verdict.retryAfterMs;
      && 0 < ms && t.rpm.Some? && t.rpm.value.ts == e.now
      && (forall at :: e.now <= at ==>
            (GRAIN <= Refill(t.rpm, at, p.requestsPerMinute, p.RequestCap()) <==> e.now + ms <= at))
  {
    hide PredictedWait, HeldBy, Due;
    var t := Step(p, s, e).0;
    PollBucket(p, s, e);
    MulMonotone(1, p.requestsPerMinute, GRAIN);
    assert Step(p, s, e) == ReserveStep(p, s, e.now, Holding(p, e), e.id, e.slo);
    forall at | e.now <= at
      ensures GRAIN <= Refill(t.rpm, at, p.requestsPerMinute, p.RequestCap())
         <==> e.now + Step(p, s, e).1.verdict.retryAfterMs <= at
    {
      LeastDelay(GRAIN - t.rpm.value.bal, p.requestsPerMinute, at - e.now);
    }
  }

  /**
   * Retry-After is sound for requests: with no admission in between, whatever is
   * committed, a retry at or after the advertised time is not shed for requests
   * again.
   */
  lemma RpmRetryIsSound(p: Policy, s: Db, e: Event, es: seq<Event>, retry: Event)
    requires e.Reserve? && Step(p, s, e).1.verdict.Shed? && Step(p, s, e).1.verdict.reason.RpmExhausted?
    requires retry.Reserve?
    requires var t := Step(p, s, e).0; NoAdmission(p, t, es) && Ordered(t, p, e.now, es, retry.now)
    requires e.now + Step(p, s, e).1.verdict.retryAfterMs <= retry.now
    ensures var r := Step(p, Run(p, Step(p, s, e).0, es), retry).1;
      r.verdict.Shed? ==> !r.verdict.reason.RpmExhausted?
  {
    hide Step, Refill, PredictedWait, Due, HeldBy, Run, Ordered, NoAdmission, CeilDiv, Ceil;
    var t := Step(p, s, e).0;
    RpmShedShape(p, s, e);
    MulMonotone(1, p.requestsPerMinute, GRAIN);
    OrderedBelow(t, p, e.now, es, retry.now);
    QuietRunRequests(p, t, e.now, es, retry.now, GRAIN);
    var u := Run(p, t, es);
    ReserveShape(p, u, retry);
  }

  /** Nor is any earlier retry of a satisfiable request spared: the delay is the least one. */
  lemma RpmRetryIsLeast(p: Policy, s: Db, e: Event, retry: Event)
    requires e.Reserve? && Step(p, s, e).1.verdict.Shed? && Step(p, s, e).1.verdict.reason.RpmExhausted?
    requires retry.Reserve? && Holding(p, retry) <= p.tokensPerMinute && e.now <= retry.now
    ensures var r := Step(p, Step(p, s, e).0, retry).1;
      (r.verdict.Shed? && r.verdict.reason.RpmExhausted?) <==> retry.now < e.now + Step(p, s, e).1.verdict.retryAfterMs
  {
    hide Step, Refill, PredictedWait, Due, HeldBy, Holding, CeilDiv, Ceil;
    RpmShedShape(p, s, e);
    ReserveShape(p, Step(p, s, e).0, retry);
  }
}
