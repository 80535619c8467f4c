/** What a caller has to do to be within the spend bound: settle each grant once, on time and within its declaration. */
module AdmissionPunctual {
  import opened Basics
  import opened SortedSet
  import opened LeaseIndex
  import opened Budgets
  import opened Estimator
  import opened Admission
  import opened AdmissionLedger
  import opened AdmissionBounds
  import opened AdmissionLifetimes
  import opened AdmissionSettlement
  import opened AdmissionSpend

  /** What a caller knows of one grant: what it declared, when its lease ends, and when it first committed. */
  datatype Grant = Grant(declared: nat, expiry: int, settledAt: Option<int>)

  type Book = map<Id, Grant>

  function Noted(p: Policy, s: Db, book: Book, e: Event): Book {
    if e.Reserve? && Step(p, s, e).1.verdict.Admit? then
      book[e.id := Grant(e.prompt + e.maxOutput, e.now + p.LeaseMs(), None)]
    else if e.Commit? && e.id in book && book[e.id].settledAt.None? then
      book[e.id := book[e.id].(settledAt := Some(e.now))]
    else book
  }

  /**
   * The first commit comes before the lease ends and keeps to the declaration; a
   * retry comes within the horizon. Both leave room for two clocks that differ
   * from the Redis clock by `skew` each.
   */
  predicate OnTime(p: Policy, book: Book, e: Event, skew: nat) {
    e.Commit? ==>
      && e.id in book
      && match book[e.id].settledAt
         case None => e.now + 2 * skew < book[e.id].expiry && e.prompt + e.output <= book[e.id].declared
         case Some(first) => e.now + 2 * skew < first + p.IdempotencyMs()
  }

  predicate Punctual(p: Policy, s: Db, book: Book, es: seq<Event>, skew: nat)
    decreases |es|
  {
    es != [] ==>
      && OnTime(p, book, es[0], skew)
      && Punctual(p, Step(p, s, es[0]).0, Noted(p, s, book, es[0]), es[1..], skew)
  }

  /** A grant live on every clock still has its lease and its hold; a recent settlement still has its marker. */
  ghost predicate Standing(p: Policy, s: Db, id: Id, g: Grant, skew: nat) {
    match g.settledAt
    case None =>
      && id !in s.settled
      && (s.clock + skew < g.expiry ==> id in s.leases && s.leases[id] == g.expiry && id in s.holds)
    case Some(first) => s.clock + skew < first + p.IdempotencyMs() ==>
      id in s.settled && first + p.IdempotencyMs() <= s.settled[id].until + skew
  }

  ghost predicate Booked(p: Policy, s: Db, book: Book, skew: nat) {
    forall id :: id in book ==> Standing(p, s, id, book[id], skew)
  }

  lemma SweepSpares(p: Policy, s: Db, now: int, id: Id)
    requires id in s.leases && now < s.leases[id] && id in s.holds
    ensures var r := Prepare(p, s, now);
      id in r.leases && r.leases[id] == s.leases[id] && id in r.holds && r.holds[id] == s.holds[id]
  {
    hide HeldBy, Refill, Due;
    assert id !in Elems(Due(s.leases, now, RECLAIM_BATCH));
  }

  lemma ReserveStanding(p: Policy, s: Db, e: Event, id: Id, g: Grant, skew: nat)
    requires e.Reserve? && e.now <= s.clock + skew && e.id != id && Standing(p, s, id, g, skew)
    ensures Standing(p, Step(p, s, e).0, id, g, skew)
  {
    hide Step, Prepare, VerdictOf, Holding;
    ReserveShape(p, s, e);
    if g.settledAt.None? && s.clock + skew < g.expiry {
      SweepSpares(p, s, e.now, id);
    }
  }

  lemma StandingOf(p: Policy, s: Db, book: Book, id: Id, skew: nat)
    requires Booked(p, s, book, skew) && id in book
    ensures Standing(p, s, id, book[id], skew)
  {
  }

  lemma CommitStanding(p: Policy, s: Db, book: Book, e: Event, id: Id, skew: nat)
    requires e.Commit? && s.clock - skew <= e.now <= s.clock + skew
    requires OnTime(p, book, e, skew) && Booked(p, s, book, skew) && id in book
    ensures Standing(p, Step(p, s, e).0, id, Noted(p, s, book, e)[id], skew)
  {
    hide Step, CurrentBalance, Observe, Booked;
    StandingOf(p, s, book, id, skew);
    StandingOf(p, s, book, e.id, skew);
    CommitShape(p, s, e);
  }

  lemma TickStanding(p: Policy, s: Db, e: Event, id: Id, g: Grant, skew: nat)
    requires e.Tick? && LeasesDated(p, s, skew) && Standing(p, s, id, g, skew)
    ensures Standing(p, Step(p, s, e).0, id, g, skew)
  {
  }

  lemma StepBooked(p: Policy, s: Db, used: set<Id>, book: Book, e: Event, skew: nat)
    requires Booked(p, s, book, skew) && Known(s, used) && book.Keys <= used && FreshIds(used, [e])
    requires Skewed(s.clock, [e], skew) && LeasesDated(p, s, skew) && OnTime(p, book, e, skew)
    ensures Booked(p, Step(p, s, e).0, Noted(p, s, book, e), skew)
    ensures Noted(p, s, book, e).Keys <= used + Named(e)
  {
    var t, book' := Step(p, s, e).0, Noted(p, s, book, e);
    forall id | id in book' ensures Standing(p, t, id, book'[id], skew) {
      if e.Reserve? && id == e.id {
        ReserveShape(p, s, e);
      } else if e.Reserve? {
        ReserveStanding(p, s, e, id, book[id], skew);
      } else if e.Commit? {
        CommitStanding(p, s, book, e, id, skew);
      } else if e.Tick? {
        TickStanding(p, s, e, id, book[id], skew);
      }
    }
  }

  /** The declarations of the grants are the ones on record. */
  ghost predicate Matches(book: Book, decl: Declarations) {
    forall id :: id in book ==> id in decl && decl[id] == book[id].declared
  }

  /** On time means within the terms of `Honest`: the hold is still there, or the marker is. */
  lemma OnTimeIsHonest(p: Policy, s: Db, book: Book, decl: Declarations, e: Event, skew: nat)
    requires e.Commit? && s.clock - skew <= e.now && e.id !in s.settled
    requires OnTime(p, book, e, skew) && Booked(p, s, book, skew) && Matches(book, decl)
    ensures e.id in s.holds && e.id in decl && e.prompt + e.output <= decl[e.id]
  {
    StandingOf(p, s, book, e.id, skew);
  }

  lemma {:induction false} PunctualIsHonest(
    p: Policy, s: Db, used: set<Id>, book: Book, decl: Declarations, es: seq<Event>, skew: nat)
    requires Booked(p, s, book, skew) && Matches(book, decl) && LeasesDated(p, s, skew)
    requires Known(s, used) && book.Keys <= used && FreshIds(used, es)
    requires Skewed(s.clock, es, skew) && Punctual(p, s, book, es, skew)
    ensures Honest(p, s, decl, es)
    decreases |es|
  {
    hide Step, Booked, LeasesDated, OnTime, Known;
    if es != [] {
      var e := es[0];
      SkewedHead(s.clock, es, skew);
      if e.Commit? && e.id !in s.settled {
        OnTimeIsHonest(p, s, book, decl, e, skew);
      }
      StepBooked(p, s, used, book, e, skew);
      StepKnown(p, s, used, e);
      StepLeasesDated(p, s, e, skew);
      PunctualIsHonest(p, Step(p, s, e).0, used + Named(e), Noted(p, s, book, e), Declare(decl, e), es[1..], skew);
    }
  }

  /**
   * The spend bound in terms a caller controls. With worst-case reservations and
   * gateway clocks within `skew` of the Redis clock, if every grant is first
   * committed before its lease ends and within its declaration, and retried only
   * within the idempotency horizon, each with twice the skew to spare, then
   * whatever is admitted, shed or abandoned the tenant is never in debt and is
   * charged at most one minute's limit plus the rate times the forward movement
   * of those clocks.
   */
  lemma PunctualSpendBound(p: Policy, clock: int, es: seq<Event>, skew: nat)
    requires p.mode == WorstCase && FreshIds({}, es) && Close(p, skew)
    requires Skewed(clock, es, skew) && Punctual(p, Empty(clock), map[], es, skew)
    ensures Debt(p, Run(p, Empty(clock), es)) == 0
    ensures RunLedger(p, Empty(clock), es).charged <= p.TokenCap() + Forward(None, es) * p.tokensPerMinute
  {
    hide Run, RunLedger, Punctual, Honest, Forward, Close, Skewed, FreshIds;
    PunctualIsHonest(p, Empty(clock), {}, map[], map[], es, skew);
    SpendBound(p, clock, es, skew);
  }

  /** The lease and the hold of `id` are in the table, unchanged. */
  ghost predicate StillHeld(s: Db, id: Id, expiry: int, tokens: nat) {
    id in s.leases && s.leases[id] == expiry && id in s.holds && s.holds[id] == tokens
  }

  lemma StepKeepsLive(p: Policy, s: Db, used: set<Id>, e: Event, id: Id, expiry: int, tokens: nat, skew: nat)
    requires StillHeld(s, id, expiry, tokens) && s.clock + Elapsed([e]) + skew < expiry
    requires LeasesDated(p, s, skew) && Skewed(s.clock, [e], skew) && Known(s, used) && FreshIds(used, [e])
    requires !(e.Commit? && e.id == id)
    ensures StillHeld(Step(p, s, e).0, id, expiry, tokens)
  {
    hide Prepare, VerdictOf, Holding, CurrentBalance, Observe;
    if e.Reserve? {
      ReserveShape(p, s, e);
      SweepSpares(p, s, e.now, id);
    } else if e.Commit? {
      CommitShape(p, s, e);
    } else {
      assert e.Tick? ==> Elapsed([e]) == e.ms;
    }
  }

  lemma {:induction false} LiveLeaseIsKept(
    p: Policy, s: Db, used: set<Id>, es: seq<Event>, id: Id, expiry: int, tokens: nat, skew: nat)
    requires StillHeld(s, id, expiry, tokens) && s.clock + Elapsed(es) + skew < expiry
    requires LeasesDated(p, s, skew) && Skewed(s.clock, es, skew) && Known(s, used) && FreshIds(used, es)
    requires Uncommitted(es, id)
    ensures StillHeld(Run(p, s, es), id, expiry, tokens)
    decreases |es|
  {
    hide Step, LeasesDated, Known, StillHeld;
    if es != [] {
      var e := es[0];
      assert e in es && forall f :: f in es[1..] ==> f in es;
      SkewedHead(s.clock, es, skew);
      assert Elapsed([e]) == if e.Tick? then e.ms else 0;
      assert Elapsed(es) == Elapsed([e]) + Elapsed(es[1..]);
      StepKeepsLive(p, s, used, e, id, expiry, tokens, skew);
      StepKnown(p, s, used, e);
      StepLeasesDated(p, s, e, skew);
      LiveLeaseIsKept(p, Step(p, s, e).0, used + Named(e), es[1..], id, expiry, tokens, skew);
    }
  }

  lemma GrantIsHeld(p: Policy, s: Db, e: Event)
    requires e.Reserve? && Step(p, s, e).1.verdict.Admit?
    ensures StillHeld(Step(p, s, e).0, e.id, e.now + p.LeaseMs(), Holding(p, e))
    ensures Step(p, s, e).0.settled == s.settled && Step(p, s, e).0.clock == s.clock
  {
    hide Step, Prepare, VerdictOf, Holding;
    ReserveShape(p, s, e);
  }

  /**
   * A lease protects its hold. Whatever other calls come in between, sweeps
   * included, the first commit of a grant finds exactly the tokens that were
   * held, and is answered as committed with their difference to the usage, as
   * long as it comes less than one lease, shortened by twice the skew of the
   * gateway clocks, after the admission on the Redis clock.
   */
  lemma LeaseProtectsItsHold(
    p: Policy, clock: int, before: seq<Event>, grant: Event, after: seq<Event>, commit: Event, skew: nat)
    requires FreshIds({}, before + ([grant] + after)) && Skewed(clock, before + ([grant] + after), skew)
    requires grant.Reserve? && Step(p, Run(p, Empty(clock), before), grant).1.verdict.Admit?
    requires commit.Commit? && commit.id == grant.id && Uncommitted(after, grant.id)
    requires Elapsed(after) + 2 * skew < p.LeaseMs()
    ensures var s := Run(p, Empty(clock), before + ([grant] + after)); var r := Step(p, s, commit).1;
      r.CommitReply? && r.status == Committed && r.refund == Holding(p, grant) - commit.prompt - commit.output
  {
    hide Step, Run, Known, LeasesDated, Holding, FreshIds, Skewed;
    var s0, es := Empty(clock), before + ([grant] + after);
    var s := Run(p, s0, before);
    var t, used := Step(p, s, grant).0, AllNamed(before);
    EmptyKnown(clock);
    EmptyDated(p, clock, skew);
    FreshAppend(p, s0, {}, before, [grant] + after);
    DatedAppend(p, s0, before, [grant] + after, skew);
    assert {} + used == used;
    GrantStep(p, s, used, grant, after, skew);
    LiveLeaseIsKept(p, t, used + Named(grant), after, grant.id, grant.now + p.LeaseMs(), Holding(p, grant), skew);
    RunAppend(p, s0, before, [grant] + after);
    RunCons(p, s, grant, after);
    var u := Run(p, t, after);
    assert Run(p, s0, es) == u;
    MarkerLifetime(p, t, after, grant.id);
    CommitShape(p, u, commit);
  }

  lemma EmptyDated(p: Policy, clock: int, skew: nat)
    ensures LeasesDated(p, Empty(clock), skew)
  {
  }

  lemma RunCons(p: Policy, s: Db, e: Event, es: seq<Event>)
    ensures Run(p, s, [e] + es) == Run(p, Step(p, s, e).0, es)
  {
    hide Step;
    assert ([e] + es)[1..] == es;
  }

  lemma {:induction false} DatedAppend(p: Policy, s: Db, xs: seq<Event>, ys: seq<Event>, skew: nat)
    requires LeasesDated(p, s, skew) && Skewed(s.clock, xs + ys, skew)
    ensures LeasesDated(p, Run(p, s, xs), skew) && Skewed(Run(p, s, xs).clock, ys, skew)
    decreases |xs|
  {
    hide Step, LeasesDated;
    if xs == [] {
      assert xs + ys == ys;
    } else {
      assert (xs + ys)[1..] == xs[1..] + ys && (xs + ys)[0] == xs[0];
      SkewedHead(s.clock, xs + ys, skew);
      StepLeasesDated(p, s, xs[0], skew);
      DatedAppend(p, Step(p, s, xs[0]).0, xs[1..], ys, skew);
    }
  }

  /** What holds right after the grant, for the calls that follow. */
  lemma GrantStep(p: Policy, s: Db, used: set<Id>, grant: Event, after: seq<Event>, skew: nat)
    requires grant.Reserve? && Step(p, s, grant).1.verdict.Admit?
    requires Known(s, used) && FreshIds(used, [grant] + after)
    requires LeasesDated(p, s, skew) && Skewed(s.clock, [grant] + after, skew)
    ensures var t := Step(p, s, grant).0;
      && StillHeld(t, grant.id, grant.now + p.LeaseMs(), Holding(p, grant)) && t.clock - skew <= grant.now
      && grant.id !in t.settled && LeasesDated(p, t, skew) && Skewed(t.clock, after, skew)
      && Known(t, used + Named(grant)) && FreshIds(used + Named(grant), after)
  {
    hide Step, Holding, LeasesDated;
    assert ([grant] + after)[0] == grant && ([grant] + after)[1..] == after;
    GrantIsHeld(p, s, grant);
    StepKnown(p, s, used, grant);
    SkewedHead(s.clock, [grant] + after, skew);
    StepLeasesDated(p, s, grant, skew);
  }

  // ----- Past the lease -----

  /**
   * A grant of one token by a gateway whose clock is slow, silence for `delay`,
   * somebody else's call by a gateway whose clock is fast, and only then the
   * commit of that token. The Redis clock starts at `skew`.
   */
  function LateCommit(id: Id, other: Id, delay: nat, skew: nat): seq<Event> {
    [Reserve(0, 0, 1, 0.0, id, 0), Tick(delay), Reserve(delay + 2 * skew, 0, 1, 0.0, other, 0),
     Commit(delay + skew, id, 0, 1, 0)]
  }

  /** Whatever is left of a table with one expired lease, a reserve call clears it. */
  lemma SweptByOther(p: Policy, s: Db, e: Event, id: Id)
    requires e.Reserve? && e.id != id && s.holds.Keys == s.leases.Keys
    requires id in s.leases ==> s.leases[id] <= e.now && |s.leases| == 1
    ensures id !in Step(p, s, e).0.holds && Step(p, s, e).0.settled == s.settled
  {
    hide Step, VerdictOf, Holding, Refill, HeldBy, Due;
    ReserveShape(p, s, e);
    if id in s.leases {
      var ahead := set k | k in s.leases && Before(s.leases, k, id);
      SubsetSize(ahead, s.leases.Keys - {id});
      DueByRank(s.leases, e.now, RECLAIM_BATCH, id);
      assert id in Elems(Due(s.leases, e.now, RECLAIM_BATCH));
    }
  }

  /** Only the last of these four steps can overrun. */
  lemma OverrunAtTheEnd(p: Policy, s: Db, a: Event, b: Event, c: Event, last: Event)
    requires !a.Commit? && !b.Commit? && !c.Commit?
    ensures var t := Step(p, Step(p, Step(p, s, a).0, b).0, c).0;
      && Overruns(p, s, [a, b, c, last]) == Overrun(p, t, last)
      && Run(p, s, [a, b, c]) == t
  {
    hide Step;
    assert [a, b, c, last][1..] == [b, c, last] && [b, c, last][1..] == [c, last] && [c, last][1..] == [last];
    assert [a, b, c][1..] == [b, c] && [b, c][1..] == [c];
    var s1 := Step(p, s, a).0;
    var s2 := Step(p, s1, b).0;
    var s3 := Step(p, s2, c).0;
    assert Overruns(p, s3, [last]) == Overrun(p, s3, last);
    assert Overruns(p, s2, [c, last]) == Overruns(p, s3, [last]);
    assert Overruns(p, s1, [b, c, last]) == Overruns(p, s2, [c, last]);
    assert Run(p, s2, [c]) == s3 && Run(p, s1, [b, c]) == Run(p, s2, [c]);
  }

  lemma LateIsFresh(id: Id, other: Id, delay: nat, skew: nat)
    requires id != other
    ensures var es := LateCommit(id, other, delay, skew);
      && FreshIds({}, es) && Skewed(skew, es, skew) && FreshIds({}, es[..3]) && Skewed(skew, es[..3], skew)
      && Elapsed([es[1], es[2]]) == delay && Uncommitted([es[1], es[2]], id)
  {
    var es := LateCommit(id, other, delay, skew);
    assert es[1..] == [es[1], es[2], es[3]] && es[1..][1..] == [es[2], es[3]] && es[1..][1..][1..] == [es[3]];
    assert es[..3] == [es[0], es[1], es[2]] && es[..3][1..] == [es[1], es[2]] && [es[1], es[2]][1..] == [es[2]];
    assert Elapsed([es[2]]) == 0;
    assert FreshIds({id, other}, [es[3]]);
    assert Skewed(skew + delay, [es[3]], skew) && Skewed(skew + delay, [es[2]], skew);
    assert {} + Named(es[0]) + Named(es[1]) + Named(es[2]) == {id, other};
    assert {} + Named(es[0]) + Named(es[1]) == {id};
    assert FreshIds({id}, [es[2]]);
  }

  /** The state the late commit meets. */
  lemma LateState(p: Policy, id: Id, other: Id, delay: nat, skew: nat)
    requires id != other
    ensures var es := LateCommit(id, other, delay, skew);
      && Step(p, Empty(skew), es[0]).1.ReserveReply? && Step(p, Empty(skew), es[0]).1.verdict.Admit?
      && (p.LeaseMs() <= delay + 2 * skew ==>
            id !in Run(p, Empty(skew), es[..3]).holds && id !in Run(p, Empty(skew), es[..3]).settled)
      && Overruns(p, Empty(skew), es) == Overrun(p, Run(p, Empty(skew), es[..3]), es[3])
  {
    hide Step, Overruns, Run, Overrun;
    var es := LateCommit(id, other, delay, skew);
    var s1 := Step(p, Empty(skew), es[0]).0;
    var s2 := Step(p, s1, es[1]).0;
    FirstGrant(p, id, skew);
    assert id in s1.leases;
    FirstIsAdmitted(p, skew, es[0]);
    TickOrSnapshotShape(p, s1, es[1]);
    OverrunAtTheEnd(p, Empty(skew), es[0], es[1], es[2], es[3]);
    assert es[..3] == [es[0], es[1], es[2]];
    if p.LeaseMs() <= delay + 2 * skew {
      SweptByOther(p, s2, es[2], id);
    }
  }

  /** A reserve that leaves a lease where there was none was admitted. */
  lemma FirstIsAdmitted(p: Policy, clock: int, e: Event)
    requires e.Reserve? && Step(p, Empty(clock), e).0.leases != map[]
    ensures Step(p, Empty(clock), e).1.ReserveReply? && Step(p, Empty(clock), e).1.verdict.Admit?
  {
    hide Step, VerdictOf, Holding, Refill, HeldBy;
    ReserveShape(p, Empty(clock), e);
  }

  /** Less than a shortened lease after the grant the late commit is not late. */
  lemma PromptCommit(p: Policy, id: Id, other: Id, delay: nat, skew: nat)
    requires id != other && delay + 2 * skew < p.LeaseMs()
    ensures var es := LateCommit(id, other, delay, skew);
      Overrun(p, Run(p, Empty(skew), es[..3]), es[3]) == 0
  {
    hide Step, Run, FreshIds, Skewed;
    var es := LateCommit(id, other, delay, skew);
    LateIsFresh(id, other, delay, skew);
    LateState(p, id, other, delay, skew);
    assert [] + ([es[0]] + [es[1], es[2]]) == es[..3];
    NoSteps(p, Empty(skew));
    LeaseProtectsItsHold(p, skew, [], es[0], [es[1], es[2]], es[3], skew);
    CommitShape(p, Run(p, Empty(skew), es[..3]), es[3]);
    HoldWithinDeclaration(p.mode, p.safety, 0, 1, 0.0);
  }

  lemma NoSteps(p: Policy, s: Db)
    ensures Run(p, s, []) == s
  {
  }

  /**
   * When worst-case reservation overruns: for every policy, delay and skew, a
   * grant of one token, another call after the delay and then the commit of that
   * token, each within its declaration, overrun if and only if the delay and
   * twice the skew make a lease or more.
   */
  lemma LateCommitOverruns(p: Policy, id: Id, other: Id, delay: nat, skew: nat)
    requires id != other
    ensures var es := LateCommit(id, other, delay, skew);
      && FreshIds({}, es) && Skewed(skew, es, skew)
      && Overruns(p, Empty(skew), es) == (if delay + 2 * skew < 1000 * p.leaseSeconds then 0 else 1)
  {
    hide Step, Overruns, FreshIds, Skewed, Run;
    LateIsFresh(id, other, delay, skew);
    LateState(p, id, other, delay, skew);
    if delay + 2 * skew < p.LeaseMs() {
      PromptCommit(p, id, other, delay, skew);
    }
  }

  /** In a run of fresh ids under clocks within `skew`, `commit` is the first commit of `grant`, `delay` after it. */
  ghost predicate FirstCommitAfter(
    p: Policy, delay: nat, skew: nat, clock: int, before: seq<Event>, grant: Event, after: seq<Event>, commit: Event)
  {
    && FreshIds({}, before + ([grant] + after)) && Skewed(clock, before + ([grant] + after), skew)
    && grant.Reserve? && Step(p, Run(p, Empty(clock), before), grant).1.verdict.Admit?
    && commit.Commit? && commit.id == grant.id && Uncommitted(after, grant.id)
    && Elapsed(after) == delay
  }

  /** The commit is answered as committed, against exactly the tokens that were held. */
  ghost predicate AnsweredInFull(
    p: Policy, clock: int, before: seq<Event>, grant: Event, after: seq<Event>, commit: Event)
    requires grant.Reserve? && commit.Commit?
  {
    var r := Step(p, Run(p, Empty(clock), before + ([grant] + after)), commit).1;
    r.CommitReply? && r.status == Committed && r.refund == Holding(p, grant) - commit.prompt - commit.output
  }

  /** The run of `LateCommit` is such a first commit; past the lease it is not answered in full. */
  lemma LateIsNotInFull(p: Policy, delay: nat, skew: nat)
    requires p.LeaseMs() <= delay + 2 * skew
    ensures var es := LateCommit(0, 1, delay, skew);
      && FirstCommitAfter(p, delay, skew, skew, [], es[0], [es[1], es[2]], es[3])
      && !AnsweredInFull(p, skew, [], es[0], [es[1], es[2]], es[3])
  {
    hide Step, Run, FreshIds, Skewed;
    var es := LateCommit(0, 1, delay, skew);
    LateIsFresh(0, 1, delay, skew);
    LateState(p, 0, 1, delay, skew);
    assert [] + ([es[0]] + [es[1], es[2]]) == es[..3];
    NoSteps(p, Empty(skew));
    CommitShape(p, Run(p, Empty(skew), es[..3]), es[3]);
  }

  /**
   * A lease protects its hold for exactly its length less twice the skew: every
   * first commit of every grant, in every run with clocks within the skew, is
   * answered in full after a given delay if and only if the delay is shorter
   * than that.
   */
  lemma LeaseIsExact(p: Policy, delay: nat, skew: nat)
    ensures (forall clock: int, before: seq<Event>, grant: Event, after: seq<Event>, commit: Event ::
               FirstCommitAfter(p, delay, skew, clock, before, grant, after, commit) ==>
                 AnsweredInFull(p, clock, before, grant, after, commit))
       <==> delay + 2 * skew < 1000 * p.leaseSeconds
  {
    if delay + 2 * skew < p.LeaseMs() {
      forall clock: int, before: seq<Event>, grant: Event, after: seq<Event>, commit: Event
        | FirstCommitAfter(p, delay, skew, clock, before, grant, after, commit)
        ensures AnsweredInFull(p, clock, before, grant, after, commit)
      {
        hide Step, Run, FreshIds, Skewed, Elapsed;
        LeaseProtectsItsHold(p, clock, before, grant, after, commit, skew);
      }
    } else {
      LateIsNotInFull(p, delay, skew);
    }
  }
}
