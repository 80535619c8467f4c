/**
 * The LLM admission protocol: what one tenant and model keep in Redis, and one
 * atomic step per script. Redis runs a script to completion, so any number of
 * gateway replicas is one sequence of these steps.
 *
 * Tokens and requests are integers; balances are in grains of 1/60000, so that
 * a budget of `limit` per minute accrues exactly `limit` grains a millisecond.
 *
 * `now` is the clock of the gateway that makes the call. `clock` is the clock
 * of Redis, which alone decides when a key expires.
 */
module Admission {
  import opened Basics
  import opened LeaseIndex
  import opened Budgets
  import opened Estimator

  const GRAIN: pos := 60000
  const RECLAIM_BATCH: nat := 32
  const EWMA_ALPHA: real := 0.2
  const COLD_START_SERVICE_MS: real := 2000.0

  /** The policy of a pair, with the deployment's idempotency horizon. */
  datatype Policy = Policy(
    tokensPerMinute: pos,
    requestsPerMinute: pos,
    maxConcurrency: pos,
    maxQueueDepth: nat,
    leaseSeconds: pos,
    mode: Mode,
    safety: Factor,
    idempotencySeconds: pos)
  {
    function TokenCap(): pos {
      tokensPerMinute * GRAIN
    }

    function RequestCap(): pos {
      requestsPerMinute * GRAIN
    }

    function LeaseMs(): pos {
      leaseSeconds * 1000
    }

    function TtlMs(): pos {
      Max(120, leaseSeconds * 2 + 60) * 1000
    }

    function IdempotencyMs(): pos {
      idempotencySeconds * 1000
    }
  }

  datatype Stats = Stats(service: Option<real>, output: Option<real>, peak: Option<nat>)

  /** The refund recorded for a settled reservation, and when the record goes. */
  datatype Marker = Marker(refund: int, until: int)

  /**
   * Every key of one tenant and model, with the instant each one expires. A
   * balance key and its timestamp key are always written by the same script
   * with the same lifetime, so a bucket is both of them or neither.
   */
  datatype Db = Db(
    clock: int,
    tpm: Option<Bucket>,
    tpmUntil: int,
    rpm: Option<Bucket>,
    rpmUntil: int,
    leases: map<Id, int>,
    leasesUntil: int,
    holds: map<Id, nat>,
    holdsUntil: int,
    stats: Stats,
    statsUntil: int,
    settled: map<Id, Marker>)

  const NO_STATS := Stats(None, None, None)

  function Empty(clock: int): Db {
    Db(clock, None, clock, None, clock, map[], clock, map[], clock, NO_STATS, clock, map[])
  }

  datatype Reason = Unsatisfiable | RpmExhausted | TpmExhausted | QueueFull | SloInfeasible

  datatype Verdict = Admit | Shed(reason: Reason, retryAfterMs: int)

  datatype Status = Committed | ReconciledAfterExpiry | DuplicateIgnored

  datatype Reply =
    | ReserveReply(verdict: Verdict, reserve: nat, tokensRemaining: int, requestsRemaining: int,
                   inflight: nat, predictedWaitMs: int, reclaimed: nat)
    | CommitReply(status: Status, refund: int, tokensRemaining: int, inflight: nat)
    | SnapshotReply(tokens: int, requests: int, inflight: nat, expired: nat,
                    service: int, output: int, peak: int)
    | NoReply

  // ----- Admission -----

  /** The state of a reserve call after the sweep and the refill. */
  datatype Ready = Ready(
    leases: map<Id, int>, holds: map<Id, nat>, reclaimed: nat, count: nat, tpm: int, rpm: int)

  function Prepare(p: Policy, s: Db, now: int): Ready {
    var expired := Due(s.leases, now, RECLAIM_BATCH);
    var reclaimed := HeldBy(s.holds, expired);
    Ready(
      s.leases - Elems(expired),
      s.holds - Elems(expired),
      reclaimed,
      |expired|,
      Min(Refill(s.tpm, now, p.tokensPerMinute, p.TokenCap()) + reclaimed * GRAIN, p.TokenCap()),
      Refill(s.rpm, now, p.requestsPerMinute, p.RequestCap()))
  }

  function ServiceEstimate(s: Db): real {
    if s.stats.service.Some? then s.stats.service.value else COLD_START_SERVICE_MS
  }

  function PredictedWait(p: Policy, inflight: nat, service: real): int {
    if inflight >= p.maxConcurrency then
      Ceil(((inflight + 1 - p.maxConcurrency) as real / p.maxConcurrency as real) * service)
    else 0
  }

  function Decide(p: Policy, tpm: int, rpm: int, inflight: nat, service: real, reserve: nat, slo: nat): Verdict {
    if reserve > p.tokensPerMinute then Shed(Unsatisfiable, 0)
    else if rpm < GRAIN then Shed(RpmExhausted, CeilDiv(GRAIN - rpm, p.requestsPerMinute))
    else if tpm < reserve * GRAIN then Shed(TpmExhausted, CeilDiv(reserve * GRAIN - tpm, p.tokensPerMinute))
    else if inflight >= p.maxConcurrency + p.maxQueueDepth then Shed(QueueFull, Ceil(service))
    else if slo > 0 && PredictedWait(p, inflight, service) > slo then Shed(SloInfeasible, Ceil(service))
    else Admit
  }

  function ReserveStep(p: Policy, s: Db, now: int, reserve: nat, id: Id, slo: nat): (Db, Reply) {
    var r := Prepare(p, s, now);
    var inflight := |r.leases|;
    var service := ServiceEstimate(s);
    var verdict := Decide(p, r.tpm, r.rpm, inflight, service, reserve, slo);
    var tpm := if verdict.Admit? then r.tpm - reserve * GRAIN else r.tpm;
    var rpm := if verdict.Admit? then r.rpm - GRAIN else r.rpm;
    var until := s.clock + p.TtlMs();
    (s.(tpm := Some(Bucket(tpm, now)), tpmUntil := until,
        rpm := Some(Bucket(rpm, now)), rpmUntil := until,
        leases := if verdict.Admit? then r.leases[id := now + p.LeaseMs()] else r.leases, leasesUntil := until,
        holds := if verdict.Admit? then r.holds[id := reserve] else r.holds, holdsUntil := until),
     ReserveReply(verdict, reserve, FloorDiv(tpm, GRAIN), FloorDiv(rpm, GRAIN),
                  if verdict.Admit? then inflight + 1 else inflight,
                  PredictedWait(p, inflight, service), r.count))
  }

  // ----- Commit -----

  function CurrentBalance(p: Policy, s: Db, now: int): int {
    Refill(s.tpm, now, p.tokensPerMinute, p.TokenCap())
  }

  function Ewma(prev: Option<real>, sample: nat): real {
    if prev.Some? then EWMA_ALPHA * sample as real + (1.0 - EWMA_ALPHA) * prev.value else sample as real
  }

  function Observe(stats: Stats, serviceMs: nat, output: nat): Stats {
    Stats(
      if serviceMs > 0 then Some(Ewma(stats.service, serviceMs)) else stats.service,
      if output > 0 then Some(Ewma(stats.output, output)) else stats.output,
      if output > (if stats.peak.Some? then stats.peak.value else 0) then Some(output) else stats.peak)
  }

  function CommitStep(p: Policy, s: Db, now: int, id: Id, actual: nat, serviceMs: nat, output: nat): (Db, Reply) {
    if id in s.settled then
      (s, CommitReply(DuplicateIgnored, s.settled[id].refund, FloorDiv(CurrentBalance(p, s, now), GRAIN), |s.leases|))
    else
      var held := if id in s.holds then s.holds[id] else 0;
      var status := if id in s.holds then Committed else ReconciledAfterExpiry;
      var leases := if id in s.holds then s.leases - {id} else s.leases;
      var refund := held - actual;
      var bal := Min(CurrentBalance(p, s, now) + refund * GRAIN, p.TokenCap());
      (s.(tpm := Some(Bucket(bal, now)), tpmUntil := s.clock + p.TtlMs(),
          leases := leases, holds := s.holds - {id},
          settled := s.settled[id := Marker(refund, s.clock + p.IdempotencyMs())],
          stats := Observe(s.stats, serviceMs, output), statsUntil := s.clock + p.TtlMs()),
       CommitReply(status, refund, FloorDiv(bal, GRAIN), |leases|))
  }

  // ----- Snapshot -----

  function SnapshotStep(p: Policy, s: Db, now: int): Reply {
    SnapshotReply(
      FloorDiv(Refill(s.tpm, now, p.tokensPerMinute, p.TokenCap()), GRAIN),
      FloorDiv(Refill(s.rpm, now, p.requestsPerMinute, p.RequestCap()), GRAIN),
      |s.leases|,
      |DueSet(s.leases, now)|,
      ServiceEstimate(s).Floor,
      if s.stats.output.Some? then s.stats.output.value.Floor else 0,
      if s.stats.peak.Some? then s.stats.peak.value else 0)
  }

  // ----- Time -----

  function LiveMarkers(settled: map<Id, Marker>, clock: int): map<Id, Marker> {
    map id | id in settled && clock < settled[id].until :: settled[id]
  }

  /** The Redis clock moves on and every key whose lifetime is over goes. */
  function TickStep(s: Db, ms: nat): Db {
    var clock := s.clock + ms;
    s.(clock := clock,
       tpm := if s.tpmUntil <= clock then None else s.tpm,
       rpm := if s.rpmUntil <= clock then None else s.rpm,
       leases := if s.leasesUntil <= clock then map[] else s.leases,
       holds := if s.holdsUntil <= clock then map[] else s.holds,
       stats := if s.statsUntil <= clock then NO_STATS else s.stats,
       settled := LiveMarkers(s.settled, clock))
  }

  // ----- Runs -----

  /**
   * One atomic step. `observed` is the output average the gateway read before
   * the reserve script ran, possibly several steps earlier. A release is a
   * commit of nothing.
   */
  datatype Event =
    | Reserve(now: int, prompt: nat, maxOutput: pos, observed: real, id: Id, slo: nat)
    | Commit(now: int, id: Id, prompt: nat, output: nat, serviceMs: nat)
    | Snapshot(now: int)
    | Tick(ms: nat)

  function Release(now: int, id: Id): Event {
    Commit(now, id, 0, 0, 0)
  }

  /** What a gateway reads before a reserve: the output average, or nothing when the policy does not use it. */
  function OutputAverage(p: Policy, s: Db): real {
    if p.mode == Adaptive && s.stats.output.Some? then s.stats.output.value else 0.0
  }

  function Holding(p: Policy, e: Event): nat
    requires e.Reserve?
  {
    EstimateReservation(p.mode, p.safety, e.prompt, e.maxOutput, e.observed).reserveTokens
  }

  function Step(p: Policy, s: Db, e: Event): (Db, Reply) {
    match e
    case Reserve(now, _, _, _, id, slo) => ReserveStep(p, s, now, Holding(p, e), id, slo)
    case Commit(now, id, prompt, output, serviceMs) => CommitStep(p, s, now, id, prompt + output, serviceMs, output)
    case Snapshot(now) => (s, SnapshotStep(p, s, now))
    case Tick(ms) => (TickStep(s, ms), NoReply)
  }

  function Run(p: Policy, s: Db, es: seq<Event>): Db
    decreases |es|
  {
    if es == [] then s else Run(p, Step(p, s, es[0]).0, es[1..])
  }

  function Replies(p: Policy, s: Db, es: seq<Event>): (rs: seq<Reply>)
    ensures |rs| == |es|
    decreases |es|
  {
    if es == [] then []
    else [Step(p, s, es[0]).1] + Replies(p, Step(p, s, es[0]).0, es[1..])
  }

  // ----- The two writing steps, field by field -----

  /** The verdict a reserve event gets. */
  function VerdictOf(p: Policy, s: Db, e: Event): Verdict
    requires e.Reserve?
  {
    var r := Prepare(p, s, e.now);
    Decide(p, r.tpm, r.rpm, |r.leases|, ServiceEstimate(s), Holding(p, e), e.slo)
  }

  lemma ReserveShape(p: Policy, s: Db, e: Event)
    requires e.Reserve?
    ensures var (t, reply) := Step(p, s, e); var r := Prepare(p, s, e.now); var hold := Holding(p, e);
      && reply.ReserveReply? && reply.verdict == VerdictOf(p, s, e)
      && t.tpm == Some(Bucket(r.tpm - (if reply.verdict.Admit? then hold * GRAIN else 0), e.now))
      && t.rpm == Some(Bucket(r.rpm - (if reply.verdict.Admit? then GRAIN else 0), e.now))
      && t.leases == (if reply.verdict.Admit? then r.leases[e.id := e.now + p.LeaseMs()] else r.leases)
      && t.holds == (if reply.verdict.Admit? then r.holds[e.id := hold] else r.holds)
      && t.tpmUntil == t.rpmUntil == t.leasesUntil == t.holdsUntil == s.clock + p.TtlMs()
      && t.clock == s.clock && t.settled == s.settled && t.stats == s.stats && t.statsUntil == s.statsUntil
  {
    hide Prepare, Decide, PredictedWait, FloorDiv;
  }

  lemma ReplayShape(p: Policy, s: Db, now: int, id: Id, actual: nat, serviceMs: nat, output: nat)
    requires id in s.settled
    ensures CommitStep(p, s, now, id, actual, serviceMs, output)
         == (s, CommitReply(DuplicateIgnored, s.settled[id].refund, FloorDiv(CurrentBalance(p, s, now), GRAIN), |s.leases|))
  {
  }

  lemma SettleState(p: Policy, s: Db, now: int, id: Id, actual: nat, serviceMs: nat, output: nat)
    requires id !in s.settled
    ensures var t := CommitStep(p, s, now, id, actual, serviceMs, output).0;
      var refund := (if id in s.holds then s.holds[id] else 0) - actual;
      var bal := Min(CurrentBalance(p, s, now) + refund * GRAIN, p.TokenCap());
      t == s.(tpm := Some(Bucket(bal, now)), tpmUntil := s.clock + p.TtlMs(),
              leases := if id in s.holds then s.leases - {id} else s.leases,
              holds := s.holds - {id},
              settled := s.settled[id := Marker(refund, s.clock + p.IdempotencyMs())],
              stats := Observe(s.stats, serviceMs, output), statsUntil := s.clock + p.TtlMs())
  {
    hide CurrentBalance, Observe, FloorDiv, Min, Policy.TokenCap, Policy.TtlMs, Policy.IdempotencyMs;
  }

  lemma SettleReply(p: Policy, s: Db, now: int, id: Id, actual: nat, serviceMs: nat, output: nat)
    requires id !in s.settled
    ensures var (t, reply) := CommitStep(p, s, now, id, actual, serviceMs, output);
      var refund := (if id in s.holds then s.holds[id] else 0) - actual;
      var bal := Min(CurrentBalance(p, s, now) + refund * GRAIN, p.TokenCap());
      reply == CommitReply(if id in s.holds then Committed else ReconciledAfterExpiry, refund,
                           FloorDiv(bal, GRAIN), |t.leases|)
  {
    hide CurrentBalance, Observe, FloorDiv, Min, Policy.TokenCap, Policy.TtlMs, Policy.IdempotencyMs;
  }

  lemma SettleShape(p: Policy, s: Db, now: int, id: Id, actual: nat, serviceMs: nat, output: nat)
    requires id !in s.settled
    ensures var (t, reply) := CommitStep(p, s, now, id, actual, serviceMs, output);
      var refund := (if id in s.holds then s.holds[id] else 0) - actual;
      var bal := Min(CurrentBalance(p, s, now) + refund * GRAIN, p.TokenCap());
      && t == s.(tpm := Some(Bucket(bal, now)), tpmUntil := s.clock + p.TtlMs(),
                 leases := if id in s.holds then s.leases - {id} else s.leases,
                 holds := s.holds - {id},
                 settled := s.settled[id := Marker(refund, s.clock + p.IdempotencyMs())],
                 stats := Observe(s.stats, serviceMs, output), statsUntil := s.clock + p.TtlMs())
      && reply == CommitReply(if id in s.holds then Committed else ReconciledAfterExpiry, refund,
                              FloorDiv(bal, GRAIN), |t.leases|)
  {
    hide CommitStep, CurrentBalance, Observe, FloorDiv, Min;
    SettleState(p, s, now, id, actual, serviceMs, output);
    SettleReply(p, s, now, id, actual, serviceMs, output);
  }

  lemma CommitShape(p: Policy, s: Db, e: Event)
    requires e.Commit?
    ensures var (t, reply) := Step(p, s, e);
      && reply.CommitReply?
      && (reply.status == DuplicateIgnored <==> e.id in s.settled)
      && reply.inflight == |t.leases|
      && (e.id in s.settled ==>
            t == s && reply.refund == s.settled[e.id].refund
            && reply.tokensRemaining == FloorDiv(CurrentBalance(p, s, e.now), GRAIN))
    ensures e.id !in s.settled ==>
      var (t, reply) := Step(p, s, e); var held := if e.id in s.holds then s.holds[e.id] else 0;
      && reply.status == (if e.id in s.holds then Committed else ReconciledAfterExpiry)
      && reply.refund == held - e.prompt - e.output
      && t == s.(tpm := Some(Bucket(Min(CurrentBalance(p, s, e.now) + reply.refund * GRAIN, p.TokenCap()), e.now)),
                 tpmUntil := s.clock + p.TtlMs(),
                 leases := if e.id in s.holds then s.leases - {e.id} else s.leases,
                 holds := s.holds - {e.id},
                 settled := s.settled[e.id := Marker(reply.refund, s.clock + p.IdempotencyMs())],
                 stats := Observe(s.stats, e.serviceMs, e.output), statsUntil := s.clock + p.TtlMs())
      && reply.tokensRemaining == FloorDiv(t.tpm.value.bal, GRAIN)
  {
    hide CommitStep, CurrentBalance, Observe, FloorDiv, Min;
    if e.id in s.settled {
      ReplayShape(p, s, e.now, e.id, e.prompt + e.output, e.serviceMs, e.output);
    } else {
      SettleShape(p, s, e.now, e.id, e.prompt + e.output, e.serviceMs, e.output);
    }
  }

  /** The bucket a settling commit leaves. */
  lemma CommitBucket(p: Policy, s: Db, e: Event)
    requires e.Commit? && e.id !in s.settled
    ensures var held := if e.id in s.holds then s.holds[e.id] else 0;
      Step(p, s, e).0.tpm
      == Some(Bucket(Min(Refill(s.tpm, e.now, p.tokensPerMinute, p.TokenCap())
                         + (held - e.prompt - e.output) * GRAIN, p.TokenCap()), e.now))
  {
    hide Step, Observe, Refill, Min, Policy.TokenCap;
    CommitShape(p, s, e);
  }

  lemma TickOrSnapshotShape(p: Policy, s: Db, e: Event)
    requires !e.Reserve? && !e.Commit?
    ensures Step(p, s, e).0 == if e.Tick? then TickStep(s, e.ms) else s
  {
  }

  // ----- What every run keeps -----

  /** Leases and holds name the same reservations, in-flight work is bounded, balances are within range. */
  ghost predicate Inv(p: Policy, s: Db) {
    && s.leases.Keys == s.holds.Keys
    && s.leasesUntil == s.holdsUntil
    && |s.leases| <= p.maxConcurrency + p.maxQueueDepth
    && (s.tpm.Some? ==> s.tpm.value.bal <= p.TokenCap())
    && (s.rpm.Some? ==> 0 <= s.rpm.value.bal <= p.RequestCap())
  }

  lemma EmptyInv(p: Policy, clock: int)
    ensures Inv(p, Empty(clock))
  {
  }

  lemma RefillRange(b: Option<Bucket>, now: int, rate: nat, cap: nat)
    ensures Refill(b, now, rate, cap) <= cap
    ensures b.Some? && 0 <= b.value.bal <= cap ==> 0 <= Refill(b, now, rate, cap)
  {
    if b.Some? {
      MulMonotone(0, Max(0, now - b.value.ts), rate);
    }
  }

  lemma PrepareInv(p: Policy, s: Db, now: int)
    requires Inv(p, s)
    ensures Prepare(p, s, now).leases.Keys == Prepare(p, s, now).holds.Keys
    ensures |Prepare(p, s, now).leases| == |s.leases| - Min(RECLAIM_BATCH, |DueSet(s.leases, now)|)
    ensures |Prepare(p, s, now).leases| <= |s.leases|
    ensures Prepare(p, s, now).count == Min(RECLAIM_BATCH, |DueSet(s.leases, now)|)
    ensures Prepare(p, s, now).tpm <= p.TokenCap()
    ensures 0 <= Prepare(p, s, now).rpm <= p.RequestCap()
  {
    SweepCount(s.leases, now, RECLAIM_BATCH);
    DueCount(s.leases, now, RECLAIM_BATCH);
    RefillRange(s.rpm, now, p.requestsPerMinute, p.RequestCap());
  }

  lemma ReserveInv(p: Policy, s: Db, e: Event)
    requires e.Reserve? && Inv(p, s)
    ensures Inv(p, Step(p, s, e).0)
  {
    hide Step, Prepare, PredictedWait, Ceil, CeilDiv;
    var r, t := Prepare(p, s, e.now), Step(p, s, e).0;
    PrepareInv(p, s, e.now);
    ReserveShape(p, s, e);
    assert r.leases[e.id := e.now + p.LeaseMs()].Keys == r.leases.Keys + {e.id};
    assert |t.leases| <= |r.leases| + 1;
  }

  lemma CommitInv(p: Policy, s: Db, e: Event)
    requires e.Commit? && Inv(p, s)
    ensures Inv(p, Step(p, s, e).0)
  {
    hide Step, CurrentBalance, Observe;
    CommitShape(p, s, e);
    assert (s.leases - {e.id}).Keys == s.leases.Keys - {e.id};
    assert (s.holds - {e.id}).Keys == s.holds.Keys - {e.id};
    if e.id !in s.holds {
      assert s.holds - {e.id} == s.holds;
    }
  }

  lemma StepInv(p: Policy, s: Db, e: Event)
    requires Inv(p, s)
    ensures Inv(p, Step(p, s, e).0)
  {
    match e
    case Reserve(_, _, _, _, _, _) => ReserveInv(p, s, e);
    case Commit(_, _, _, _, _) => CommitInv(p, s, e);
    case Snapshot(_) =>
    case Tick(_) =>
  }

  /** State invariant of every run. */
  lemma {:induction false} RunInv(p: Policy, s: Db, es: seq<Event>)
    requires Inv(p, s)
    ensures Inv(p, Run(p, s, es))
    decreases |es|
  {
    if es != [] {
      StepInv(p, s, es[0]);
      RunInv(p, Step(p, s, es[0]).0, es[1..]);
    }
  }
}
