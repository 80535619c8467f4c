/** Snapshots and replays: they change nothing, and they report what the next decision will see. */
module AdmissionReads {
  import opened Basics
  import opened LeaseIndex
  import opened Budgets
  import opened Admission

  // ----- Erasure -----

  predicate ReadOnly(s: Db, e: Event) {
    e.Snapshot? || (e.Commit? && e.id in s.settled)
  }

  /** The run without its snapshots and its replays of live settlements. */
  function Kept(p: Policy, s: Db, es: seq<Event>): seq<Event>
    decreases |es|
  {
    if es == [] then []
    else (if ReadOnly(s, es[0]) then [] else [es[0]]) + Kept(p, Step(p, s, es[0]).0, es[1..])
  }

  /** The replies to the events that are kept, as given in the full run. */
  function KeptReplies(p: Policy, s: Db, es: seq<Event>): seq<Reply>
    decreases |es|
  {
    if es == [] then []
    else (if ReadOnly(s, es[0]) then [] else [Step(p, s, es[0]).1]) + KeptReplies(p, Step(p, s, es[0]).0, es[1..])
  }

  lemma ReadOnlyChangesNothing(p: Policy, s: Db, e: Event)
    requires ReadOnly(s, e)
    ensures Step(p, s, e).0 == s
  {
  }

  /** Taking every snapshot and live replay out of a run changes neither the other replies nor the final state. */
  lemma {:induction false} Erasure(p: Policy, s: Db, es: seq<Event>)
    ensures Run(p, s, Kept(p, s, es)) == Run(p, s, es)
    ensures Replies(p, s, Kept(p, s, es)) == KeptReplies(p, s, es)
    decreases |es|
  {
    hide Step;
    if es != [] {
      var (next, r) := Step(p, s, es[0]);
      Erasure(p, next, es[1..]);
      if ReadOnly(s, es[0]) {
        ReadOnlyChangesNothing(p, s, es[0]);
        assert Kept(p, s, es) == Kept(p, next, es[1..]);
        assert KeptReplies(p, s, es) == KeptReplies(p, next, es[1..]);
      } else {
        assert Kept(p, s, es)[1..] == Kept(p, next, es[1..]);
      }
    }
  }

  // ----- One reading for three scripts -----

  lemma FloorBelow(grains: int, tokens: int)
    ensures tokens * GRAIN <= grains <==> tokens <= FloorDiv(grains, GRAIN)
    ensures FloorDiv(grains - tokens * GRAIN, GRAIN) == FloorDiv(grains, GRAIN) - tokens
  {
  }

  lemma NothingDue(leases: map<Id, int>, now: int)
    requires DueSet(leases, now) == {}
    ensures Due(leases, now, RECLAIM_BATCH) == []
  {
  }

  lemma PrepareUnswept(p: Policy, s: Db, now: int)
    requires DueSet(s.leases, now) == {}
    ensures Prepare(p, s, now) == Ready(s.leases, s.holds, 0, 0,
      Refill(s.tpm, now, p.tokensPerMinute, p.TokenCap()), Refill(s.rpm, now, p.requestsPerMinute, p.RequestCap()))
  {
    NothingDue(s.leases, now);
    RefillRange(s.tpm, now, p.tokensPerMinute, p.TokenCap());
    assert s.leases - Elems([]) == s.leases && s.holds - Elems([]) == s.holds;
  }

  lemma FloorAndCeil(x: real)
    ensures x.Floor <= Ceil(x) <= x.Floor + 1
  {
  }

  /** The verdict read off whole numbers of tokens and requests, as a snapshot shows them. */
  function Outlook(p: Policy, tokens: int, requests: int, inflight: nat, wait: int, hold: nat, slo: nat): Option<Reason> {
    if hold > p.tokensPerMinute then Some(Unsatisfiable)
    else if requests < 1 then Some(RpmExhausted)
    else if tokens < hold then Some(TpmExhausted)
    else if inflight >= p.maxConcurrency + p.maxQueueDepth then Some(QueueFull)
    else if 0 < slo < wait then Some(SloInfeasible)
    else None
  }

  lemma WaitMonotone(p: Policy, inflight: nat, low: real, high: real)
    requires low <= high
    ensures PredictedWait(p, inflight, low) <= PredictedWait(p, inflight, high)
  {
    if inflight >= p.maxConcurrency {
      var batches := (inflight + 1 - p.maxConcurrency) as real / p.maxConcurrency as real;
      assert batches * low <= batches * high;
      CeilMonotone(batches * low, batches * high);
    }
  }

  /** The wait a snapshot lets one predict, from its service time rounded down or up. */
  function ShownWait(p: Policy, snap: Reply, up: nat): int
    requires snap.SnapshotReply?
  {
    PredictedWait(p, snap.inflight, (snap.service + up) as real)
  }

  function ShownOutlook(p: Policy, snap: Reply, up: nat, hold: nat, slo: nat): Option<Reason>
    requires snap.SnapshotReply?
  {
    Outlook(p, snap.tokens, snap.requests, snap.inflight, ShownWait(p, snap, up), hold, slo)
  }

  /** The verdict as the outlook words it. */
  function Shedding(v: Verdict): Option<Reason> {
    if v.Admit? then None else Some(v.reason)
  }

  /** The reserve as an outlook on the whole tokens and requests of the snapshot and its own wait. */
  lemma ReserveIsOutlook(p: Policy, s: Db, e: Event)
    requires e.Reserve? && DueSet(s.leases, e.now) == {}
    ensures var snap, r, hold := SnapshotStep(p, s, e.now), Step(p, s, e).1, Holding(p, e);
      && r.ReserveReply?
      && r.predictedWaitMs == PredictedWait(p, snap.inflight, ServiceEstimate(s))
      && Shedding(r.verdict)
         == Outlook(p, snap.tokens, snap.requests, snap.inflight, r.predictedWaitMs, hold, e.slo)
      && r.tokensRemaining == snap.tokens - (if r.verdict.Admit? then hold else 0)
      && r.requestsRemaining == snap.requests - (if r.verdict.Admit? then 1 else 0)
      && r.inflight == snap.inflight + (if r.verdict.Admit? then 1 else 0)
      && (r.verdict.Shed? && r.verdict.reason == Unsatisfiable ==> r.verdict.retryAfterMs == 0)
      && (r.verdict.Shed? && r.verdict.reason in {QueueFull, SloInfeasible} ==>
            snap.service <= r.verdict.retryAfterMs <= snap.service + 1)
      && r.reclaimed == 0
  {
    var hold := Holding(p, e);
    PrepareUnswept(p, s, e.now);
    var tokens := Refill(s.tpm, e.now, p.tokensPerMinute, p.TokenCap());
    var requests := Refill(s.rpm, e.now, p.requestsPerMinute, p.RequestCap());
    FloorBelow(tokens, hold);
    FloorBelow(requests, 1);
    FloorBelow(tokens, 0);
    FloorAndCeil(ServiceEstimate(s));
    hide Refill, Due, HeldBy, FloorDiv, CeilDiv, Ceil, PredictedWait;
    assert Step(p, s, e) == ReserveStep(p, s, e.now, hold, e.id, e.slo);
  }

  /**
   * With no expired lease pending, the snapshot taken at the same instant
   * decides the reserve from its own fields: the same reason to shed or none.
   * The one thing it cannot decide is a deadline that falls between the waits
   * its service time gives rounded down and rounded up; then the reserve is
   * either admitted or shed for that deadline. The budgets are the shown ones
   * less exactly what was granted.
   */
  lemma SnapshotPredictsReserve(p: Policy, s: Db, e: Event)
    requires e.Reserve? && SnapshotStep(p, s, e.now).expired == 0
    ensures var snap, r, hold := SnapshotStep(p, s, e.now), Step(p, s, e).1, Holding(p, e);
            var low, high := ShownOutlook(p, snap, 0, hold, e.slo), ShownOutlook(p, snap, 1, hold, e.slo);
      && (low == high ==> Shedding(r.verdict) == low)
      && (low != high ==>
            && ShownWait(p, snap, 0) <= e.slo < ShownWait(p, snap, 1)
            && low == None && high == Some(SloInfeasible)
            && (r.verdict.Shed? ==> r.verdict.reason == SloInfeasible))
      && ShownWait(p, snap, 0) <= r.predictedWaitMs <= ShownWait(p, snap, 1)
      && r.tokensRemaining == snap.tokens - (if r.verdict.Admit? then hold else 0)
      && r.requestsRemaining == snap.requests - (if r.verdict.Admit? then 1 else 0)
      && r.inflight == snap.inflight + (if r.verdict.Admit? then 1 else 0)
      && (r.verdict.Shed? && r.verdict.reason == Unsatisfiable ==> r.verdict.retryAfterMs == 0)
      && (r.verdict.Shed? && r.verdict.reason in {QueueFull, SloInfeasible} ==>
            snap.service <= r.verdict.retryAfterMs <= snap.service + 1)
      && r.reclaimed == 0
  {
    hide Step, PredictedWait, Holding, Refill;
    var snap := SnapshotStep(p, s, e.now);
    assert DueSet(s.leases, e.now) == {};
    ReserveIsOutlook(p, s, e);
    var service := ServiceEstimate(s);
    WaitMonotone(p, snap.inflight, snap.service as real, service);
    WaitMonotone(p, snap.inflight, service, (snap.service + 1) as real);
  }

  /**
   * In general the reserve sweeps what the snapshot counts as expired, 32 at
   * most, and the next snapshot at that instant counts the rest.
   */
  lemma SnapshotPredictsSweep(p: Policy, s: Db, e: Event)
    requires e.Reserve? && e.id !in s.leases
    ensures var snap, r, next := SnapshotStep(p, s, e.now), Step(p, s, e).1, SnapshotStep(p, Step(p, s, e).0, e.now);
      && r.reclaimed == Min(32, snap.expired)
      && r.inflight == snap.inflight - r.reclaimed + (if r.verdict.Admit? then 1 else 0)
      && next.expired == snap.expired - r.reclaimed
  {
    hide Refill, Due, HeldBy, FloorDiv, VerdictOf, PredictedWait, Decide;
    var ids := Due(s.leases, e.now, RECLAIM_BATCH);
    SweepCount(s.leases, e.now, RECLAIM_BATCH);
    DueCount(s.leases, e.now, RECLAIM_BATCH);
    StillDue(s.leases, ids, e.now);
    NewIsNotDue(s.leases - Elems(ids), e.id, e.now + p.LeaseMs(), e.now);
    ReserveShape(p, s, e);
  }

  lemma StillDue(leases: map<Id, int>, ids: seq<Id>, now: int)
    requires Elems(ids) <= DueSet(leases, now) && Distinct(ids)
    ensures |DueSet(leases - Elems(ids), now)| == |DueSet(leases, now)| - |ids|
  {
    ElemsCount(ids);
    assert DueSet(leases - Elems(ids), now) == DueSet(leases, now) - Elems(ids);
  }

  lemma NewIsNotDue(leases: map<Id, int>, id: Id, expiry: int, now: int)
    requires id !in leases && now < expiry
    ensures DueSet(leases[id := expiry], now) == DueSet(leases, now)
  {
  }

  // ----- What replies report -----

  /** A tenant nobody has seen: full budgets, nothing in flight, two seconds of service time, no statistics. */
  lemma FreshSnapshot(p: Policy, clock: int, now: int)
    ensures SnapshotStep(p, Empty(clock), now)
         == SnapshotReply(p.tokensPerMinute, p.requestsPerMinute, 0, 0, 2000, 0, 0)
  {
    FloorBelow(p.TokenCap(), p.tokensPerMinute);
    FloorBelow(p.TokenCap(), p.tokensPerMinute + 1);
    FloorBelow(p.RequestCap(), p.requestsPerMinute);
    FloorBelow(p.RequestCap(), p.requestsPerMinute + 1);
    assert DueSet(map[], now) == {};
  }

  /** Whole units of a budget at its capacity, and of one topped up by whole units. */
  lemma FloorOfMin(grains: int, units: int, limit: int)
    ensures FloorDiv(Min(grains + units * GRAIN, limit * GRAIN), GRAIN) == Min(FloorDiv(grains, GRAIN) + units, limit)
  {
    FloorBelow(grains, -units);
    FloorBelow(limit * GRAIN, limit);
    FloorBelow(limit * GRAIN, limit + 1);
    FloorBelow(grains + units * GRAIN, limit);
  }

  /** The reply's own numbers are those of the state it leaves. */
  lemma ReserveNumbers(p: Policy, s: Db, e: Event)
    requires e.Reserve? && e.id !in s.leases
    ensures var (t, r) := Step(p, s, e);
      && r.ReserveReply? && r.reserve == Holding(p, e) && r.inflight == |t.leases|
      && t.tpm.Some? && r.tokensRemaining == FloorDiv(t.tpm.value.bal, GRAIN)
      && t.rpm.Some? && r.requestsRemaining == FloorDiv(t.rpm.value.bal, GRAIN)
  {
    hide Refill, Due, HeldBy, FloorDiv, Decide, PredictedWait, Holding, Min;
  }

  /** And the next snapshot at that instant shows them. */
  lemma NextSnapshot(p: Policy, s: Db, e: Event)
    requires e.Reserve?
    ensures var t := Step(p, s, e).0; var after := SnapshotStep(p, t, e.now);
      && t.tpm.Some? && after.tokens == FloorDiv(t.tpm.value.bal, GRAIN)
      && t.rpm.Some? && after.requests == FloorDiv(t.rpm.value.bal, GRAIN)
      && after.inflight == |t.leases|
  {
    hide Step, Refill, Due, HeldBy, FloorDiv, VerdictOf, Holding, Min;
    ReserveShape(p, s, e);
    var t, ids := Step(p, s, e).0, Due(s.leases, e.now, RECLAIM_BATCH);
    RefillRange(s.rpm, e.now, p.requestsPerMinute, p.RequestCap());
    MinAtMost(Refill(s.tpm, e.now, p.tokensPerMinute, p.TokenCap()) + HeldBy(s.holds, ids) * GRAIN, p.TokenCap());
    ReadsBack(t.tpm.value.bal, e.now, p.tokensPerMinute, p.TokenCap());
    ReadsBack(t.rpm.value.bal, e.now, p.requestsPerMinute, p.RequestCap());
  }

  /** The tokens the step leaves, whole. */
  lemma GrantedTokens(p: Policy, s: Db, e: Event)
    requires e.Reserve? && e.id !in s.holds
    ensures var (t, r) := Step(p, s, e); var granted := if r.verdict.Admit? then Holding(p, e) else 0;
      && r.ReserveReply? && t.tpm.Some?
      && FloorDiv(t.tpm.value.bal, GRAIN)
         == Min(FloorDiv(Refill(s.tpm, e.now, p.tokensPerMinute, p.TokenCap()), GRAIN)
                + (Total(s.holds) + granted - Total(t.holds)), p.tokensPerMinute) - granted
  {
    hide Step, Refill, Due, HeldBy, FloorDiv, Holding, Min, Total, Policy.TokenCap;
    ReserveBuckets(p, s, e);
    var (t, r) := Step(p, s, e);
    var ids, granted: nat := Due(s.leases, e.now, RECLAIM_BATCH), if r.verdict.Admit? then Holding(p, e) else 0;
    SweptTotal(s.holds, ids, e.id, Holding(p, e));
    assert Total(s.holds) + granted - Total(t.holds) == HeldBy(s.holds, ids);
    WholeTokens(p, Refill(s.tpm, e.now, p.tokensPerMinute, p.TokenCap()), HeldBy(s.holds, ids), granted);
  }

  /** And the requests. */
  lemma GrantedRequests(p: Policy, s: Db, e: Event)
    requires e.Reserve?
    ensures var (t, r) := Step(p, s, e);
      && r.ReserveReply? && t.rpm.Some?
      && FloorDiv(t.rpm.value.bal, GRAIN)
         == FloorDiv(Refill(s.rpm, e.now, p.requestsPerMinute, p.RequestCap()), GRAIN)
            - (if r.verdict.Admit? then 1 else 0)
  {
    hide Step, Refill, Due, HeldBy, FloorDiv, Holding, Min, Policy.TokenCap, Policy.RequestCap;
    ReserveBuckets(p, s, e);
    FloorBelow(Refill(s.rpm, e.now, p.requestsPerMinute, p.RequestCap()), 1);
  }

  lemma SnapshotBudgets(p: Policy, s: Db, now: int)
    ensures SnapshotStep(p, s, now).tokens == FloorDiv(Refill(s.tpm, now, p.tokensPerMinute, p.TokenCap()), GRAIN)
    ensures SnapshotStep(p, s, now).requests == FloorDiv(Refill(s.rpm, now, p.requestsPerMinute, p.RequestCap()), GRAIN)
  {
  }

  lemma ReserveBuckets(p: Policy, s: Db, e: Event)
    requires e.Reserve?
    ensures var (t, r) := Step(p, s, e); var ids := Due(s.leases, e.now, RECLAIM_BATCH);
            var granted := if r.verdict.Admit? then Holding(p, e) else 0;
      && r.ReserveReply?
      && t.tpm == Some(Bucket(Min(Refill(s.tpm, e.now, p.tokensPerMinute, p.TokenCap()) + HeldBy(s.holds, ids) * GRAIN,
                                  p.TokenCap()) - granted * GRAIN, e.now))
      && t.rpm == Some(Bucket(Refill(s.rpm, e.now, p.requestsPerMinute, p.RequestCap())
                              - (if r.verdict.Admit? then GRAIN else 0), e.now))
      && t.holds == if r.verdict.Admit? then (s.holds - Elems(ids))[e.id := Holding(p, e)] else s.holds - Elems(ids)
  {
    hide Step, Refill, Due, HeldBy, VerdictOf, Holding, Min;
    ReserveShape(p, s, e);
  }

  lemma SweptTotal(holds: map<Id, nat>, ids: seq<Id>, id: Id, hold: nat)
    requires Distinct(ids) && id !in holds
    ensures Total(holds - Elems(ids)) == Total(holds) - HeldBy(holds, ids)
    ensures Total((holds - Elems(ids))[id := hold]) == Total(holds) - HeldBy(holds, ids) + hold
  {
    TotalSweep(holds, ids);
    TotalAdd(holds - Elems(ids), id, hold);
  }

  lemma WholeTokens(p: Policy, grains: int, back: nat, granted: nat)
    ensures FloorDiv(Min(grains + back * GRAIN, p.TokenCap()) - granted * GRAIN, GRAIN)
         == Min(FloorDiv(grains, GRAIN) + back, p.tokensPerMinute) - granted
  {
    FloorOfMin(grains, back, p.tokensPerMinute);
    FloorBelow(Min(grains + back * GRAIN, p.TokenCap()), granted);
  }

  /**
   * Every reserve reply, sweeps included, by the snapshots just before and just
   * after it: its budgets are the ones shown before, plus the tokens that left
   * the hold table, at most the limit, less exactly what was granted; and the
   * next snapshot shows the same. What it reports as its hold is what was held.
   */
  lemma ReserveReports(p: Policy, s: Db, e: Event)
    requires e.Reserve? && e.id !in s.holds && e.id !in s.leases
    ensures var (t, r) := Step(p, s, e);
            var before, after := SnapshotStep(p, s, e.now), SnapshotStep(p, t, e.now);
            var granted := if r.verdict.Admit? then r.reserve else 0;
      && r.ReserveReply?
      && r.tokensRemaining == after.tokens
         == Min(before.tokens + (Total(s.holds) + granted - Total(t.holds)), p.tokensPerMinute) - granted
      && r.requestsRemaining == after.requests == before.requests - (if r.verdict.Admit? then 1 else 0)
      && r.inflight == after.inflight
      && (r.verdict.Admit? ==> e.id in t.holds && t.holds[e.id] == r.reserve)
  {
    hide Step, SnapshotStep, FloorDiv, Holding, Min, Total, VerdictOf, Prepare, Refill;
    ReserveNumbers(p, s, e);
    NextSnapshot(p, s, e);
    GrantedTokens(p, s, e);
    GrantedRequests(p, s, e);
    SnapshotBudgets(p, s, e.now);
    ReserveShape(p, s, e);
  }

  lemma ReadsBack(bal: int, now: int, rate: nat, cap: int)
    ensures bal <= cap ==> Refill(Some(Bucket(bal, now)), now, rate, cap) == bal
  {
  }

  lemma MinAtMost(a: int, b: int)
    ensures Min(a, b) <= b
  {
  }

  /** A budget nobody touches grows by its limit every minute, as shown in whole units, up to the limit. */
  lemma SnapshotAccrues(p: Policy, s: Db, now: int, minutes: nat)
    requires s.tpm.Some? && s.tpm.value.ts <= now && s.rpm.Some? && s.rpm.value.ts <= now
    ensures var first, later := SnapshotStep(p, s, now), SnapshotStep(p, s, now + 60000 * minutes);
      && later.tokens == Min(first.tokens + minutes * p.tokensPerMinute, p.tokensPerMinute)
      && later.requests == Min(first.requests + minutes * p.requestsPerMinute, p.requestsPerMinute)
  {
    MinutesOf(s.tpm.value, now, minutes, p.tokensPerMinute);
    MinutesOf(s.rpm.value, now, minutes, p.requestsPerMinute);
  }

  lemma MinutesOf(b: Bucket, now: int, minutes: nat, limit: pos)
    requires b.ts <= now
    ensures FloorDiv(Refill(Some(b), now + 60000 * minutes, limit, limit * GRAIN), GRAIN)
         == Min(FloorDiv(Refill(Some(b), now, limit, limit * GRAIN), GRAIN) + minutes * limit, limit)
  {
    var first := Refill(Some(b), now, limit, limit * GRAIN);
    AccrueSplit(b.ts, now, now + 60000 * minutes, limit);
    MinutesEarn(minutes, limit);
    MulMonotone(0, minutes, limit);
    assert Refill(Some(b), now + 60000 * minutes, limit, limit * GRAIN)
        == Min(first + (minutes * limit) * GRAIN, limit * GRAIN);
    FloorOfMin(first, minutes * limit, limit);
  }

  lemma MinutesEarn(minutes: nat, limit: pos)
    ensures (60000 * minutes) * limit == (minutes * limit) * GRAIN
  {
  }

  /** A commit settles against the balance a snapshot shows; a replay reports it as it stands. */
  lemma SnapshotPredictsCommit(p: Policy, s: Db, e: Event)
    requires e.Commit? && s.leases.Keys == s.holds.Keys
    ensures var snap, r := SnapshotStep(p, s, e.now), Step(p, s, e).1;
      if r.status.DuplicateIgnored? then r.tokensRemaining == snap.tokens && r.inflight == snap.inflight
      else
        && r.tokensRemaining == Min(snap.tokens + r.refund, p.tokensPerMinute)
        && r.inflight == snap.inflight - (if r.status.Committed? then 1 else 0)
        && r.refund == (if r.status.Committed? then s.holds[e.id] else 0) - e.prompt - e.output
  {
    var bal := CurrentBalance(p, s, e.now);
    hide Refill, Observe;
    if e.id !in s.settled {
      var refund := Step(p, s, e).1.refund;
      FloorBelow(bal, -refund);
      FloorBelow(p.TokenCap(), p.tokensPerMinute);
      if e.id in s.holds {
        assert (s.leases - {e.id}).Keys == s.leases.Keys - {e.id};
      }
    }
  }
}
