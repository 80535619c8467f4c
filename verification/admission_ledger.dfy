/** Conservation of tokens over every run of the protocol. */
module AdmissionLedger {
  import opened Basics
  import opened LeaseIndex
  import opened Budgets
  import opened Admission

  // ----- Fresh reservation ids -----

  function Named(e: Event): set<Id> {
    match e
    case Reserve(_, _, _, _, id, _) => {id}
    case Commit(_, id, _, _, _) => {id}
    case _ => {}
  }

  /** Every reserve brings an id that no earlier call has used. */
  predicate FreshIds(used: set<Id>, es: seq<Event>)
    decreases |es|
  {
    es != [] ==>
      && (es[0].Reserve? ==> es[0].id !in used)
      && FreshIds(used + Named(es[0]), es[1..])
  }

  ghost predicate Known(s: Db, used: set<Id>) {
    s.leases.Keys <= used && s.holds.Keys <= used && s.settled.Keys <= used
  }

  lemma StepKnown(p: Policy, s: Db, used: set<Id>, e: Event)
    requires Known(s, used)
    ensures Known(Step(p, s, e).0, used + Named(e))
  {
    hide Step, VerdictOf, Holding, CurrentBalance, Refill, Due, HeldBy, Observe;
    if e.Reserve? {
      ReserveShape(p, s, e);
    } else if e.Commit? {
      CommitShape(p, s, e);
    } else {
      TickOrSnapshotShape(p, s, e);
    }
  }

  lemma {:induction false} RunAppend(p: Policy, s: Db, xs: seq<Event>, ys: seq<Event>)
    ensures Run(p, s, xs + ys) == Run(p, Run(p, s, xs), ys)
    ensures Replies(p, s, xs + ys) == Replies(p, s, xs) + Replies(p, Run(p, s, xs), ys)
    decreases |xs|
  {
    hide Step;
    if xs == [] {
      assert xs + ys == ys;
    } else {
      assert (xs + ys)[1..] == xs[1..] + ys;
      RunAppend(p, Step(p, s, xs[0]).0, xs[1..], ys);
    }
  }

  // ----- The ledger -----

  /** What a run contributes, in grains. */
  datatype Ledger = Ledger(accrued: int, lost: int, charged: int, forgiven: int, dropped: int) {
    function Plus(l: Ledger): Ledger {
      Ledger(accrued + l.accrued, lost + l.lost, charged + l.charged, forgiven + l.forgiven, dropped + l.dropped)
    }

    ghost predicate AtMost(l: Ledger) {
      && accrued <= l.accrued && lost <= l.lost && charged <= l.charged
      && forgiven <= l.forgiven && dropped <= l.dropped
    }
  }

  const ZERO := Ledger(0, 0, 0, 0, 0)

  /** Accrued, and lost to the two clamps that follow: the refill's own, and the one after `returned` is added. */
  function Settled(p: Policy, s: Db, now: int, returned: int): Ledger {
    var earned := Accrual(s.tpm, now, p.tokensPerMinute);
    var read := Stored(s.tpm, p.TokenCap()) + earned;
    Ledger(earned, Over(read, p.TokenCap()) + Over(Min(read, p.TokenCap()) + returned, p.TokenCap()), 0, 0, 0)
  }

  /**
   * Charged is what a commit that is not a replay used. A budget key that
   * expires forgives whatever it was short of full; a lease table that expires
   * drops every hold in it.
   */
  ghost function StepLedger(p: Policy, s: Db, e: Event): Ledger {
    match e
    case Reserve(now, _, _, _, _, _) => Settled(p, s, now, HeldBy(s.holds, Due(s.leases, now, RECLAIM_BATCH)) * GRAIN)
    case Commit(now, id, prompt, output, _) =>
      if Step(p, s, e).1.status.DuplicateIgnored? then ZERO
      else
        var held := if id in s.holds then s.holds[id] else 0;
        Settled(p, s, now, (held - prompt - output) * GRAIN).(charged := (prompt + output) * GRAIN)
    case Snapshot(_) => ZERO
    case Tick(ms) =>
      Ledger(0, 0, 0,
             if s.tpmUntil <= s.clock + ms then p.TokenCap() - Stored(s.tpm, p.TokenCap()) else 0,
             if s.holdsUntil <= s.clock + ms then Total(s.holds) * GRAIN else 0)
  }

  ghost function RunLedger(p: Policy, s: Db, es: seq<Event>): Ledger
    decreases |es|
  {
    if es == [] then ZERO
    else StepLedger(p, s, es[0]).Plus(RunLedger(p, Step(p, s, es[0]).0, es[1..]))
  }

  /** Balance and outstanding holds together. */
  ghost function Wealth(p: Policy, s: Db): int {
    Stored(s.tpm, p.TokenCap()) + Total(s.holds) * GRAIN
  }

  ghost predicate Balanced(p: Policy, s: Db, t: Db, l: Ledger) {
    Wealth(p, t) + l.lost + l.dropped == Wealth(p, s) + l.accrued + l.forgiven - l.charged
  }

  lemma ReserveConserves(p: Policy, s: Db, e: Event)
    requires e.Reserve? && e.id !in s.holds
    ensures Balanced(p, s, Step(p, s, e).0, StepLedger(p, s, e))
  {
    hide Step, VerdictOf, Due, HeldBy, Refill, Accrual, Holding, Total, Over, Min;
    ReserveShape(p, s, e);
    var expired := Due(s.leases, e.now, RECLAIM_BATCH);
    TotalSweep(s.holds, expired);
    TotalAdd(s.holds - Elems(expired), e.id, Holding(p, e));
    SettleLedger(s.tpm, e.now, p.tokensPerMinute, p.TokenCap(), HeldBy(s.holds, expired) * GRAIN);
  }

  lemma TakenFromTotal(holds: map<Id, nat>, id: Id)
    ensures Total(holds - {id}) == Total(holds) - (if id in holds then holds[id] else 0)
  {
    if id in holds {
      TotalSplit(holds, id);
    } else {
      assert holds - {id} == holds;
    }
  }

  lemma CommitConserves(p: Policy, s: Db, e: Event)
    requires e.Commit? && e.id !in s.settled
    ensures Balanced(p, s, Step(p, s, e).0, StepLedger(p, s, e))
  {
    hide Step, Refill, Accrual, Observe, Policy.TokenCap, Over, Min, Total, Stored;
    var held: nat := if e.id in s.holds then s.holds[e.id] else 0;
    var net := held - e.prompt - e.output;
    CommitBucket(p, s, e);
    CommitHolds(p, s, e);
    TakenFromTotal(s.holds, e.id);
    SettleLedger(s.tpm, e.now, p.tokensPerMinute, p.TokenCap(), net * GRAIN);
    CommitLedger(p, s, e, net);
    StoredOf(Step(p, s, e).0.tpm.value, p.TokenCap());
  }

  lemma CommitHolds(p: Policy, s: Db, e: Event)
    requires e.Commit? && e.id !in s.settled
    ensures Step(p, s, e).0.holds == s.holds - {e.id}
  {
    hide Step, Observe, Refill, Min, Policy.TokenCap;
    CommitShape(p, s, e);
  }

  lemma CommitLedger(p: Policy, s: Db, e: Event, net: int)
    requires e.Commit? && e.id !in s.settled
    requires net == (if e.id in s.holds then s.holds[e.id] else 0) - e.prompt - e.output
    ensures StepLedger(p, s, e) == Settled(p, s, e.now, net * GRAIN).(charged := (e.prompt + e.output) * GRAIN)
  {
    hide Settled;
  }

  lemma StoredOf(b: Bucket, cap: int)
    ensures Stored(Some(b), cap) == b.bal
  {
  }

  lemma ReplayConserves(p: Policy, s: Db, e: Event)
    requires e.Commit? && e.id in s.settled
    ensures Balanced(p, s, Step(p, s, e).0, StepLedger(p, s, e))
  {
  }

  lemma StepConserves(p: Policy, s: Db, e: Event)
    requires e.Reserve? ==> e.id !in s.holds
    ensures Balanced(p, s, Step(p, s, e).0, StepLedger(p, s, e))
  {
    if e.Reserve? {
      ReserveConserves(p, s, e);
    } else if e.Commit? {
      if e.id in s.settled {
        ReplayConserves(p, s, e);
      } else {
        CommitConserves(p, s, e);
      }
    }
  }

  /**
   * Conservation: over every run, what is left in the balance and in holds is
   * what there was, plus accrual and forgiven debt, minus first-commit usage,
   * minus what clamps and expired holds lost.
   */
  lemma {:induction false} Conservation(p: Policy, s: Db, used: set<Id>, es: seq<Event>)
    requires Known(s, used) && FreshIds(used, es)
    ensures Balanced(p, s, Run(p, s, es), RunLedger(p, s, es))
    decreases |es|
  {
    if es != [] {
      StepConserves(p, s, es[0]);
      StepKnown(p, s, used, es[0]);
      hide Step, StepLedger, Wealth;
      Conservation(p, Step(p, s, es[0]).0, used + Named(es[0]), es[1..]);
    }
  }

  /** From an empty store: balance + holds + lost = one full limit + accrued - charged. */
  lemma ConservationFromEmpty(p: Policy, clock: int, es: seq<Event>)
    requires FreshIds({}, es)
    ensures var t, l := Run(p, Empty(clock), es), RunLedger(p, Empty(clock), es);
      Stored(t.tpm, p.TokenCap()) + Total(t.holds) * GRAIN + l.lost + l.dropped
      == p.TokenCap() + l.accrued + l.forgiven - l.charged
  {
    Conservation(p, Empty(clock), {}, es);
  }

  lemma StepLedgerNonNegative(p: Policy, s: Db, e: Event)
    requires Inv(p, s)
    ensures ZERO.AtMost(StepLedger(p, s, e))
  {
    hide Decide, PredictedWait, Due, HeldBy;
  }

  lemma {:induction false} RunLedgerNonNegative(p: Policy, s: Db, es: seq<Event>)
    requires Inv(p, s)
    ensures ZERO.AtMost(RunLedger(p, s, es))
    decreases |es|
  {
    if es != [] {
      StepLedgerNonNegative(p, s, es[0]);
      StepInv(p, s, es[0]);
      hide Step, StepLedger;
      RunLedgerNonNegative(p, Step(p, s, es[0]).0, es[1..]);
    }
  }

  lemma {:induction false} RunLedgerAppend(p: Policy, s: Db, xs: seq<Event>, ys: seq<Event>)
    ensures RunLedger(p, s, xs + ys) == RunLedger(p, s, xs).Plus(RunLedger(p, Run(p, s, xs), ys))
    decreases |xs|
  {
    hide Step, StepLedger, Ledger.Plus;
    if xs == [] {
      assert xs + ys == ys;
      ZeroIsNeutral(RunLedger(p, s, ys));
    } else {
      var next, first := Step(p, s, xs[0]).0, StepLedger(p, s, xs[0]);
      assert (xs + ys)[1..] == xs[1..] + ys;
      assert RunLedger(p, s, xs + ys) == first.Plus(RunLedger(p, next, xs[1..] + ys));
      RunLedgerAppend(p, next, xs[1..], ys);
      assert Run(p, s, xs) == Run(p, next, xs[1..]);
      PlusAssociates(first, RunLedger(p, next, xs[1..]), RunLedger(p, Run(p, s, xs), ys));
    }
  }

  lemma ZeroIsNeutral(l: Ledger)
    ensures ZERO.Plus(l) == l
  {
  }

  lemma PlusAssociates(a: Ledger, b: Ledger, c: Ledger)
    ensures a.Plus(b.Plus(c)) == a.Plus(b).Plus(c)
  {
  }

  /** No entry of the ledger ever goes down as a run goes on; in particular what clamps lost stays lost. */
  lemma LedgerNeverDecreases(p: Policy, s: Db, es: seq<Event>, k: nat)
    requires Inv(p, s) && k <= |es|
    ensures RunLedger(p, s, es[..k]).AtMost(RunLedger(p, s, es))
  {
    assert es == es[..k] + es[k..];
    RunLedgerAppend(p, s, es[..k], es[k..]);
    RunInv(p, s, es[..k]);
    RunLedgerNonNegative(p, Run(p, s, es[..k]), es[k..]);
  }
}
