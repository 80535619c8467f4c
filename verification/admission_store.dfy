/**
 * The scripts as they run: step-by-step updates of the Redis keys, each proved
 * to be one step of the protocol.
 */
module AdmissionStore {
  import opened Basics
  import opened LeaseIndex
  import opened Budgets
  import opened Estimator
  import opened Admission

  /** The tables without the listed ids. */
  ghost function Without(s: Db, ids: seq<Id>): Db {
    s.(leases := s.leases - Elems(ids), holds := s.holds - Elems(ids))
  }

  /** One turn of the sweep loop takes one more listed id out of both tables. */
  lemma SweepOne(s: Db, expired: seq<Id>, i: nat)
    requires i < |expired| && Distinct(expired)
    ensures var id, t := expired[i], Without(s, expired[..i]);
      && Without(s, expired[..i + 1]) == t.(leases := t.leases - {id}, holds := t.holds - {id})
      && (id in t.holds <==> id in s.holds)
      && (id in s.holds ==> t.holds[id] == s.holds[id])
      && (id !in t.holds ==> t.holds - {id} == t.holds)
    ensures HeldBy(s.holds, expired[i..])
         == (if expired[i] in s.holds then s.holds[expired[i]] else 0) + HeldBy(s.holds, expired[i + 1..])
  {
    var id, t := expired[i], Without(s, expired[..i]);
    assert Elems(expired[..i + 1]) == Elems(expired[..i]) + {id};
    assert expired[i..][1..] == expired[i + 1..];
    assert s.leases - Elems(expired[..i + 1]) == t.leases - {id};
    assert s.holds - Elems(expired[..i + 1]) == t.holds - {id};
  }

  /** The Redis keys of one tenant and model. */
  class Store {
    var db: Db

    constructor (clock: int)
      ensures db == Empty(clock)
    {
      db := Empty(clock);
    }

    /** Removes what its owners never came back for, one batch at most. */
    method Sweep(now: int) returns (reclaimed: nat, count: nat)
      modifies this
      ensures db == Without(old(db), Due(old(db.leases), now, RECLAIM_BATCH))
      ensures reclaimed == HeldBy(old(db.holds), Due(old(db.leases), now, RECLAIM_BATCH))
      ensures count == |Due(old(db.leases), now, RECLAIM_BATCH)|
    {
      reclaimed, count := 0, 0;
      ghost var before := db;
      var expired := Due(db.leases, now, RECLAIM_BATCH);
      assert db == Without(before, expired[..0]);
      for i := 0 to |expired|
        invariant db == Without(before, expired[..i])
        invariant reclaimed + HeldBy(before.holds, expired[i..]) == HeldBy(before.holds, expired)
        invariant count == i
      {
        SweepOne(before, expired, i);
        var id := expired[i];
        if id in db.holds {
          reclaimed := reclaimed + db.holds[id];
          db := db.(holds := db.holds - {id});
        }
        db := db.(leases := db.leases - {id});
        count := count + 1;
      }
      assert expired[..|expired|] == expired;
    }

    /** The read shared by the scripts: the balance with its accrual, or a full budget. */
    method Read(b: Option<Bucket>, now: int, rate: nat, cap: int) returns (current: int)
      ensures current == Refill(b, now, rate, cap)
    {
      if b.None? {
        return cap;
      }
      current := Min(b.value.bal + Max(0, now - b.value.ts) * rate, cap);
    }

    /** The ordered constraints of the admission script. */
    method Judge(p: Policy, tpmBal: int, rpmBal: int, inflight: nat, avgService: real, reserve: nat, slo: nat)
      returns (verdict: Verdict, wait: int)
      ensures verdict == Decide(p, tpmBal, rpmBal, inflight, avgService, reserve, slo)
      ensures wait == PredictedWait(p, inflight, avgService)
    {
      wait := 0;
      if inflight >= p.maxConcurrency {
        wait := Ceil(((inflight + 1 - p.maxConcurrency) as real / p.maxConcurrency as real) * avgService);
      }
      if reserve > p.tokensPerMinute {
        verdict := Shed(Unsatisfiable, 0);
      } else if rpmBal < GRAIN {
        verdict := Shed(RpmExhausted, CeilDiv(GRAIN - rpmBal, p.requestsPerMinute));
      } else if tpmBal < reserve * GRAIN {
        verdict := Shed(TpmExhausted, CeilDiv(reserve * GRAIN - tpmBal, p.tokensPerMinute));
      } else if inflight >= p.maxConcurrency + p.maxQueueDepth {
        verdict := Shed(QueueFull, Ceil(avgService));
      } else if slo > 0 && wait > slo {
        verdict := Shed(SloInfeasible, Ceil(avgService));
      } else {
        verdict := Verdict.Admit;
      }
    }

    method Lease(id: Id, expiry: int, tokens: nat)
      modifies this
      ensures db == old(db).(leases := old(db.leases)[id := expiry], holds := old(db.holds)[id := tokens])
    {
      db := db.(leases := db.leases[id := expiry]);
      db := db.(holds := db.holds[id := tokens]);
    }

    /** Both balances are written whatever the decision, and every key gets a new lifetime. */
    method Persist(tpm: Bucket, rpm: Bucket, until: int)
      modifies this
      ensures db == old(db).(tpm := Some(tpm), tpmUntil := until, rpm := Some(rpm), rpmUntil := until,
                             leasesUntil := until, holdsUntil := until)
    {
      db := db.(tpm := Some(tpm), tpmUntil := until);
      db := db.(rpm := Some(rpm), rpmUntil := until);
      db := db.(leasesUntil := until);
      db := db.(holdsUntil := until);
    }

    /** Sweep and refill, the two phases that happen whatever the decision. */
    method Refresh(p: Policy, now: int) returns (r: Ready)
      modifies this
      ensures r == Prepare(p, old(db), now)
      ensures db == old(db).(leases := r.leases, holds := r.holds)
    {
      hide Refill, Due, HeldBy;
      var reclaimed, count := Sweep(now);
      var tpmBal := Read(db.tpm, now, p.tokensPerMinute, p.TokenCap());
      tpmBal := Min(tpmBal + reclaimed * GRAIN, p.TokenCap());
      var rpmBal := Read(db.rpm, now, p.requestsPerMinute, p.RequestCap());
      r := Ready(db.leases, db.holds, reclaimed, count, tpmBal, rpmBal);
    }

    /** ADMIT_SCRIPT. */
    method Admit(p: Policy, now: int, reserve: nat, id: Id, slo: nat) returns (reply: Reply)
      modifies this
      ensures (db, reply) == ReserveStep(p, old(db), now, reserve, id, slo)
    {
      hide Prepare, Decide, PredictedWait, FloorDiv;
      var r := Refresh(p, now);
      var tpmBal, rpmBal, inflight := r.tpm, r.rpm, |db.leases|;
      var avgService := if db.stats.service.Some? then db.stats.service.value else COLD_START_SERVICE_MS;
      var verdict, wait := Judge(p, tpmBal, rpmBal, inflight, avgService, reserve, slo);
      if verdict.Admit? {
        tpmBal := tpmBal - reserve * GRAIN;
        rpmBal := rpmBal - GRAIN;
        Lease(id, now + p.LeaseMs(), reserve);
        inflight := inflight + 1;
      }
      Persist(Bucket(tpmBal, now), Bucket(rpmBal, now), db.clock + p.TtlMs());
      reply := ReserveReply(verdict, reserve, FloorDiv(tpmBal, GRAIN), FloorDiv(rpmBal, GRAIN), inflight, wait, r.count);
    }

    /** Keeps the wait predictor and the output average calibrated on a real completion. */
    method Calibrate(serviceMs: nat, outputTokens: nat, until: int)
      modifies this
      ensures db == old(db).(stats := Observe(old(db.stats), serviceMs, outputTokens), statsUntil := until)
    {
      var stats := db.stats;
      if serviceMs > 0 {
        var next := serviceMs as real;
        if stats.service.Some? {
          next := EWMA_ALPHA * serviceMs as real + (1.0 - EWMA_ALPHA) * stats.service.value;
        }
        stats := stats.(service := Some(next));
      }
      if outputTokens > 0 {
        var next := outputTokens as real;
        if stats.output.Some? {
          next := EWMA_ALPHA * outputTokens as real + (1.0 - EWMA_ALPHA) * stats.output.value;
        }
        stats := stats.(output := Some(next));
        var peak := if stats.peak.Some? then stats.peak.value else 0;
        if outputTokens > peak {
          stats := stats.(peak := Some(outputTokens));
        }
      }
      db := db.(stats := stats);
      db := db.(statsUntil := until);
    }

    /** Takes the hold back if the lease is still there. */
    method TakeHold(id: Id) returns (held: nat, status: Status)
      modifies this
      ensures id in old(db.holds) ==>
        && held == old(db.holds)[id] && status == Committed
        && db == old(db).(leases := old(db.leases) - {id}, holds := old(db.holds) - {id})
      ensures id !in old(db.holds) ==> held == 0 && status == ReconciledAfterExpiry && db == old(db)
      ensures db.holds == old(db.holds) - {id}
    {
      held, status := 0, ReconciledAfterExpiry;
      if id in db.holds {
        held, status := db.holds[id], Committed;
        db := db.(holds := db.holds - {id});
        db := db.(leases := db.leases - {id});
      }
    }

    /** Writes the settled balance and the marker that makes a replay recognisable. */
    method Record(tpm: Bucket, until: int, id: Id, marker: Marker)
      modifies this
      ensures db == old(db).(tpm := Some(tpm), tpmUntil := until, settled := old(db.settled)[id := marker])
    {
      db := db.(tpm := Some(tpm), tpmUntil := until);
      db := db.(settled := db.settled[id := marker]);
    }

    /** COMMIT_SCRIPT. */
    method Settle(p: Policy, now: int, id: Id, actual: nat, serviceMs: nat, outputTokens: nat) returns (reply: Reply)
      modifies this
      ensures (db, reply) == CommitStep(p, old(db), now, id, actual, serviceMs, outputTokens)
    {
      hide CommitStep, Refill, FloorDiv, Observe, Min;
      if id in db.settled {
        ReplayShape(p, db, now, id, actual, serviceMs, outputTokens);
        var current := Read(db.tpm, now, p.tokensPerMinute, p.TokenCap());
        return CommitReply(DuplicateIgnored, db.settled[id].refund, FloorDiv(current, GRAIN), |db.leases|);
      }
      SettleShape(p, db, now, id, actual, serviceMs, outputTokens);
      var held, status := TakeHold(id);
      var bal := Read(db.tpm, now, p.tokensPerMinute, p.TokenCap());
      var refund := held - actual;
      bal := Min(bal + refund * GRAIN, p.TokenCap());
      Record(Bucket(bal, now), db.clock + p.TtlMs(), id, Marker(refund, db.clock + p.IdempotencyMs()));
      Calibrate(serviceMs, outputTokens, db.clock + p.TtlMs());
      reply := CommitReply(status, refund, FloorDiv(bal, GRAIN), |db.leases|);
    }

    /** SNAPSHOT_SCRIPT: reads everything and changes nothing. */
    method Inspect(p: Policy, now: int) returns (reply: Reply)
      ensures reply == SnapshotStep(p, db, now)
    {
      var tokens := Read(db.tpm, now, p.tokensPerMinute, p.TokenCap());
      var requests := Read(db.rpm, now, p.requestsPerMinute, p.RequestCap());
      var avgService := if db.stats.service.Some? then db.stats.service.value else COLD_START_SERVICE_MS;
      reply := SnapshotReply(
        FloorDiv(tokens, GRAIN), FloorDiv(requests, GRAIN), |db.leases|, |DueSet(db.leases, now)|, avgService.Floor,
        if db.stats.output.Some? then db.stats.output.value.Floor else 0,
        if db.stats.peak.Some? then db.stats.peak.value else 0);
    }

    /** The gateway's read of the output average, ahead of the reserve script. */
    method ObservedOutput(p: Policy) returns (observed: real)
      ensures observed == OutputAverage(p, db)
    {
      if p.mode != Adaptive {
        return 0.0;
      }
      observed := if db.stats.output.Some? then db.stats.output.value else 0.0;
    }

    /** Redis time passes and keys whose lifetime is over are dropped. */
    method Advance(ms: nat)
      modifies this
      ensures db == TickStep(old(db), ms)
    {
      db := db.(clock := db.clock + ms);
      if db.tpmUntil <= db.clock {
        db := db.(tpm := None);
      }
      if db.rpmUntil <= db.clock {
        db := db.(rpm := None);
      }
      if db.leasesUntil <= db.clock {
        db := db.(leases := map[]);
      }
      if db.holdsUntil <= db.clock {
        db := db.(holds := map[]);
      }
      if db.statsUntil <= db.clock {
        db := db.(stats := NO_STATS);
      }
      db := db.(settled := LiveMarkers(db.settled, db.clock));
    }
  }

  /**
   * A reserve call in a gateway, from its read of the output average to its run
   * of the script. Other gateways may use the store in between.
   */
  class Attempt {
    const policy: Policy
    const prompt: nat
    const maxOutput: pos
    const observed: real

    /** The read. */
    constructor (store: Store, policy: Policy, prompt: nat, maxOutput: pos)
      ensures this.policy == policy && this.prompt == prompt && this.maxOutput == maxOutput
      ensures observed == OutputAverage(policy, store.db)
    {
      var average := store.ObservedOutput(policy);
      this.policy, this.prompt, this.maxOutput, this.observed := policy, prompt, maxOutput, average;
    }

    /** The script, at whatever state the store has reached by then, for a hold sized from the read. */
    method Finish(store: Store, now: int, id: Id, slo: nat) returns (reply: Reply)
      modifies store
      ensures (store.db, reply)
           == Step(policy, old(store.db), Event.Reserve(now, prompt, maxOutput, observed, id, slo))
    {
      var estimate := EstimateReservation(policy.mode, policy.safety, prompt, maxOutput, observed);
      reply := store.Admit(policy, now, estimate.reserveTokens, id, slo);
    }
  }

  /** The whole call, when nothing comes between its read and its script. */
  method ReserveCall(store: Store, p: Policy, now: int, prompt: nat, maxOutput: pos, id: Id, slo: nat)
    returns (reply: Reply)
    modifies store
    ensures (store.db, reply)
         == Step(p, old(store.db), Event.Reserve(now, prompt, maxOutput, OutputAverage(p, old(store.db)), id, slo))
  {
    var attempt := new Attempt(store, p, prompt, maxOutput);
    reply := attempt.Finish(store, now, id, slo);
  }

  method CommitCall(store: Store, p: Policy, now: int, id: Id, prompt: nat, output: nat, serviceMs: nat)
    returns (reply: Reply)
    modifies store
    ensures (store.db, reply)
         == Step(p, old(store.db), Event.Commit(now, id, prompt, output, serviceMs))
  {
    reply := store.Settle(p, now, id, prompt + output, serviceMs, output);
  }

  /** Abandons a reservation without consuming it. */
  method ReleaseCall(store: Store, p: Policy, now: int, id: Id) returns (reply: Reply)
    modifies store
    ensures (store.db, reply) == Step(p, old(store.db), Release(now, id))
  {
    reply := CommitCall(store, p, now, id, 0, 0, 0);
  }
}
