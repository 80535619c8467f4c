/** The averages stay within their samples, and so does everything sized from them. */
module AdmissionStats {
  import opened Basics
  import opened LeaseIndex
  import opened Budgets
  import opened Estimator
  import opened Admission
  import opened AdmissionBounds

  /** Every service time the run learns from lies in [lo, hi]. */
  ghost predicate ServiceSamples(p: Policy, s: Db, es: seq<Event>, lo: real, hi: real)
    decreases |es|
  {
    es != [] ==>
      && (es[0].Commit? && Writes(s, es[0]) && es[0].serviceMs > 0 ==> lo <= es[0].serviceMs as real <= hi)
      && ServiceSamples(p, Step(p, s, es[0]).0, es[1..], lo, hi)
  }

  /** Every output length the run learns from lies in [lo, hi]. */
  ghost predicate OutputSamples(p: Policy, s: Db, es: seq<Event>, lo: real, hi: real)
    decreases |es|
  {
    es != [] ==>
      && (es[0].Commit? && Writes(s, es[0]) && es[0].output > 0 ==> lo <= es[0].output as real <= hi)
      && OutputSamples(p, Step(p, s, es[0]).0, es[1..], lo, hi)
  }

  ghost predicate Within(average: Option<real>, lo: real, hi: real) {
    average.Some? ==> lo <= average.value <= hi
  }

  lemma EwmaWithin(prev: Option<real>, sample: nat, lo: real, hi: real)
    requires Within(prev, lo, hi) && lo <= sample as real <= hi
    ensures lo <= Ewma(prev, sample) <= hi
  {
  }

  /** Stats change only by a commit that writes, and are lost only all together. */
  lemma StepStats(p: Policy, s: Db, e: Event)
    ensures var t := Step(p, s, e).0;
      if e.Commit? && Writes(s, e) then t.stats == Observe(s.stats, e.serviceMs, e.output)
      else t.stats == s.stats || t.stats == NO_STATS
  {
    hide Decide, PredictedWait, Observe;
  }

  /** The service average never leaves the range of its samples. */
  lemma {:induction false} ServiceContained(p: Policy, s: Db, es: seq<Event>, lo: real, hi: real)
    requires Within(s.stats.service, lo, hi) && ServiceSamples(p, s, es, lo, hi)
    ensures Within(Run(p, s, es).stats.service, lo, hi)
    decreases |es|
  {
    hide Step, Ewma;
    if es != [] {
      StepStats(p, s, es[0]);
      if es[0].Commit? && Writes(s, es[0]) && es[0].serviceMs > 0 {
        EwmaWithin(s.stats.service, es[0].serviceMs, lo, hi);
      }
      ServiceContained(p, Step(p, s, es[0]).0, es[1..], lo, hi);
    }
  }

  // ----- Forgetting -----

  function Averaged(start: Option<real>, samples: seq<nat>): Option<real>
    decreases |samples|
  {
    if samples == [] then start else Averaged(Some(Ewma(start, samples[0])), samples[1..])
  }

  /** The share of an old average that k further samples leave. */
  function Share(k: nat): real {
    if k == 0 then 1.0 else 0.8 * Share(k - 1)
  }

  /** History fades geometrically: after k samples two different pasts differ by 0.8^k of what they did. */
  lemma {:induction false} EwmaForgets(a: real, b: real, samples: seq<nat>)
    ensures Averaged(Some(a), samples).Some? && Averaged(Some(b), samples).Some?
    ensures Averaged(Some(a), samples).value - Averaged(Some(b), samples).value == Share(|samples|) * (a - b)
    decreases |samples|
  {
    if samples != [] {
      var a', b' := Ewma(Some(a), samples[0]), Ewma(Some(b), samples[0]);
      EwmaForgets(a', b', samples[1..]);
      assert a' - b' == 0.8 * (a - b);
    }
  }

  /** The service times the run learns from, in order. */
  function Learned(p: Policy, s: Db, es: seq<Event>): seq<nat>
    decreases |es|
  {
    if es == [] then []
    else
      (if es[0].Commit? && Writes(s, es[0]) && es[0].serviceMs > 0 then [es[0].serviceMs] else [])
      + Learned(p, Step(p, s, es[0]).0, es[1..])
  }

  /** From the first sample on, commits come often enough to keep the stats key alive. */
  predicate StatsKept(p: Policy, s: Db, es: seq<Event>)
    decreases |es|
  {
    es != [] ==>
      && (es[0].Tick? && s.stats != NO_STATS ==> s.clock + es[0].ms < s.statsUntil)
      && StatsKept(p, Step(p, s, es[0]).0, es[1..])
  }

  lemma StepKeepsStats(p: Policy, s: Db, e: Event)
    requires e.Tick? && s.stats != NO_STATS ==> s.clock + e.ms < s.statsUntil
    ensures Step(p, s, e).0.stats
         == if e.Commit? && Writes(s, e) then Observe(s.stats, e.serviceMs, e.output) else s.stats
  {
    hide Decide, PredictedWait, Observe;
  }

  /**
   * The stored service average is the average of the first-commit service
   * times, in order and each once: replays, releases and unknown times teach it
   * nothing.
   */
  lemma {:induction false} ServiceIsAveraged(p: Policy, s: Db, es: seq<Event>)
    requires StatsKept(p, s, es)
    ensures Run(p, s, es).stats.service == Averaged(s.stats.service, Learned(p, s, es))
    decreases |es|
  {
    hide Step, Ewma;
    if es != [] {
      var next := Step(p, s, es[0]).0;
      StepKeepsStats(p, s, es[0]);
      ServiceIsAveraged(p, next, es[1..]);
      var rest := Learned(p, next, es[1..]);
      if es[0].Commit? && Writes(s, es[0]) && es[0].serviceMs > 0 {
        assert ([es[0].serviceMs] + rest)[1..] == rest;
      } else {
        assert [] + rest == rest;
      }
    }
  }

  /** The output lengths the run learns from, in order. */
  function LearnedOutputs(p: Policy, s: Db, es: seq<Event>): seq<nat>
    decreases |es|
  {
    if es == [] then []
    else
      (if es[0].Commit? && Writes(s, es[0]) && es[0].output > 0 then [es[0].output] else [])
      + LearnedOutputs(p, Step(p, s, es[0]).0, es[1..])
  }

  function Greatest(start: Option<nat>, samples: seq<nat>): Option<nat>
    decreases |samples|
  {
    if samples == [] then start
    else Greatest(Some(if start.Some? then Max(start.value, samples[0]) else samples[0]), samples[1..])
  }

  lemma ObserveOutput(st: Stats, serviceMs: nat, output: nat)
    requires output > 0
    ensures Observe(st, serviceMs, output).output == Some(Ewma(st.output, output))
    ensures Observe(st, serviceMs, output).peak
         == Some(if st.peak.Some? then Max(st.peak.value, output) else output)
  {
    hide Ewma;
  }

  /** The stored output average and peak are the average and the greatest of the first-commit output lengths. */
  lemma {:induction false} OutputIsAveraged(p: Policy, s: Db, es: seq<Event>)
    requires StatsKept(p, s, es)
    ensures Run(p, s, es).stats.output == Averaged(s.stats.output, LearnedOutputs(p, s, es))
    ensures Run(p, s, es).stats.peak == Greatest(s.stats.peak, LearnedOutputs(p, s, es))
    decreases |es|
  {
    hide Step, Ewma;
    if es != [] {
      var next := Step(p, s, es[0]).0;
      StepKeepsStats(p, s, es[0]);
      OutputIsAveraged(p, next, es[1..]);
      var rest := LearnedOutputs(p, next, es[1..]);
      if es[0].Commit? && Writes(s, es[0]) && es[0].output > 0 {
        ObserveOutput(s.stats, es[0].serviceMs, es[0].output);
        assert ([es[0].output] + rest)[1..] == rest;
      } else {
        assert [] + rest == rest;
      }
    }
  }

  // ----- What the replies show of the averages -----

  /** A first sample is the average; a second one has a fifth of the weight. */
  lemma FirstTwoSamples(a: nat, b: nat)
    ensures Averaged(None, [a]) == Some(a as real)
    ensures Averaged(None, [a, b]) == Some(0.2 * b as real + 0.8 * a as real)
  {
    assert [a, b][1..] == [b] && [b][1..] == [] && [a][1..] == [];
    assert Averaged(Some(Ewma(Some(a as real), b)), []) == Some(Ewma(Some(a as real), b));
  }

  lemma {:induction false} AveragedPositive(start: Option<real>, samples: seq<nat>)
    requires start.Some? ==> 0.0 < start.value
    requires forall x :: x in samples ==> 0 < x
    ensures Averaged(start, samples).Some? <==> start.Some? || samples != []
    ensures Averaged(start, samples).Some? ==> 0.0 < Averaged(start, samples).value
    decreases |samples|
  {
    if samples != [] {
      assert samples[0] in samples && forall x :: x in samples[1..] ==> x in samples;
      AveragedPositive(Some(Ewma(start, samples[0])), samples[1..]);
    }
  }

  lemma {:induction false} GreatestExists(start: Option<nat>, samples: seq<nat>)
    ensures Greatest(start, samples).Some? <==> start.Some? || samples != []
    ensures forall x :: x in samples ==> x <= Greatest(start, samples).value
    ensures Greatest(start, samples).Some? ==>
      Greatest(start, samples) == start || Greatest(start, samples).value in samples
    ensures start.Some? ==> start.value <= Greatest(start, samples).value
    decreases |samples|
  {
    if samples != [] {
      var next := if start.Some? then Max(start.value, samples[0]) else samples[0];
      GreatestExists(Some(next), samples[1..]);
      assert forall x :: x in samples ==> x == samples[0] || x in samples[1..];
      assert samples[0] in samples;
    }
  }

  lemma {:induction false} LearnedPositive(p: Policy, s: Db, es: seq<Event>)
    ensures forall x :: x in Learned(p, s, es) ==> 0 < x
    ensures forall x :: x in LearnedOutputs(p, s, es) ==> 0 < x
    decreases |es|
  {
    hide Step;
    if es != [] {
      LearnedPositive(p, Step(p, s, es[0]).0, es[1..]);
    }
  }

  /** The weighted average of the samples, from the first one on; 0 without any. */
  function Average(samples: seq<nat>): real {
    match Averaged(None, samples)
    case Some(a) => a
    case None => 0.0
  }

  /** The greatest of the samples; 0 without any. */
  function Peak(samples: seq<nat>): nat {
    match Greatest(None, samples)
    case Some(x) => x
    case None => 0
  }

  /** The service time replies go by: two seconds before anything is known. */
  function ServiceTime(samples: seq<nat>): real {
    if samples == [] then 2000.0 else Average(samples)
  }

  lemma PeakIsGreatest(samples: seq<nat>)
    ensures forall x :: x in samples ==> x <= Peak(samples)
    ensures Peak(samples) == 0 || Peak(samples) in samples
  {
    GreatestExists(None, samples);
  }

  lemma RunStats(p: Policy, clock: int, es: seq<Event>)
    requires StatsKept(p, Empty(clock), es)
    ensures var s, services, outputs :=
              Run(p, Empty(clock), es), Learned(p, Empty(clock), es), LearnedOutputs(p, Empty(clock), es);
      && ServiceEstimate(s) == ServiceTime(services)
      && (s.stats.output.Some? <==> outputs != []) && (s.stats.peak.Some? <==> outputs != [])
      && (outputs != [] ==> s.stats.output.value == Average(outputs) && s.stats.peak.value == Peak(outputs))
      && (outputs != [] ==> 0.0 < Average(outputs)) && (outputs == [] ==> Average(outputs) == 0.0 && Peak(outputs) == 0)
  {
    var services, outputs := Learned(p, Empty(clock), es), LearnedOutputs(p, Empty(clock), es);
    ServiceIsAveraged(p, Empty(clock), es);
    OutputIsAveraged(p, Empty(clock), es);
    LearnedPositive(p, Empty(clock), es);
    AveragedPositive(None, services);
    AveragedPositive(None, outputs);
    GreatestExists(None, outputs);
    hide Run, Learned, LearnedOutputs, Averaged, Greatest;
  }

  /**
   * What a snapshot shows of the statistics, from the calls of the run alone:
   * the averages of the first-commit service times and output lengths, rounded
   * down, and the longest output; two seconds and zeros before any are known.
   */
  lemma SnapshotShowsSamples(p: Policy, clock: int, es: seq<Event>, now: int)
    requires StatsKept(p, Empty(clock), es)
    ensures var r := Step(p, Run(p, Empty(clock), es), Snapshot(now)).1;
            var services, outputs := Learned(p, Empty(clock), es), LearnedOutputs(p, Empty(clock), es);
      && r.SnapshotReply?
      && r.service == (if services == [] then 2000 else Average(services).Floor)
      && r.output == Average(outputs).Floor
      && r.peak == Peak(outputs)
  {
    RunStats(p, clock, es);
    hide Run, Learned, LearnedOutputs, Average, Peak, Refill;
  }

  /** A request shed for a full queue or its deadline is told to come back after one average service time, rounded up. */
  lemma BusyRetryIsOneService(p: Policy, clock: int, es: seq<Event>, e: Event)
    requires StatsKept(p, Empty(clock), es) && e.Reserve?
    requires var v := Step(p, Run(p, Empty(clock), es), e).1.verdict;
      v.Shed? && (v.reason.QueueFull? || v.reason.SloInfeasible?)
    ensures var v := Step(p, Run(p, Empty(clock), es), e).1.verdict;
            var service := ServiceTime(Learned(p, Empty(clock), es));
      service <= v.retryAfterMs as real < service + 1.0
  {
    hide Run, Learned, LearnedOutputs, Step, ServiceTime, ServiceEstimate, StatsKept;
    RunStats(p, clock, es);
    BusyRetry(p, Run(p, Empty(clock), es), e);
  }

  lemma BusyRetry(p: Policy, s: Db, e: Event)
    requires e.Reserve?
    requires var v := Step(p, s, e).1.verdict; v.Shed? && (v.reason.QueueFull? || v.reason.SloInfeasible?)
    ensures var v := Step(p, s, e).1.verdict;
      ServiceEstimate(s) <= v.retryAfterMs as real < ServiceEstimate(s) + 1.0
  {
    hide Step, Prepare, Holding, PredictedWait;
    ReserveShape(p, s, e);
  }

  /** What a reserve call reports as its hold, it holds if admitted. */
  lemma ReportedHold(p: Policy, s: Db, e: Event)
    requires e.Reserve?
    ensures var (t, r) := Step(p, s, e);
      && r.ReserveReply? && r.reserve == Holding(p, e)
      && (r.verdict.Admit? ==> e.id in t.holds && t.holds[e.id] == r.reserve)
  {
    hide Prepare, Decide, PredictedWait, FloorDiv, Holding;
  }

  /** The average times the safety factor, rounded up: at least one token, at most the ceiling. */
  function Cover(p: Policy, average: real, maxOutput: pos): nat {
    Min(maxOutput, Max(1, Ceil(average * p.safety)))
  }

  /**
   * What a reserve call holds, from the calls of the run alone. The output
   * average is read after `es`; the script runs later, whatever has happened to
   * the store by then. An adaptive tenant that has committed outputs holds its
   * prompt and the safety factor times their average, rounded up, at least one
   * token and at most the declared output. Every other holds the declaration.
   */
  lemma CallHolds(p: Policy, clock: int, es: seq<Event>, later: Db, e: Event)
    requires StatsKept(p, Empty(clock), es)
    requires e.Reserve? && e.observed == OutputAverage(p, Run(p, Empty(clock), es))
    ensures var (t, r) := Step(p, later, e); var outputs := LearnedOutputs(p, Empty(clock), es);
      && r.ReserveReply?
      && r.reserve == e.prompt + (
           if p.mode == Adaptive && outputs != [] then Cover(p, Average(outputs), e.maxOutput) else e.maxOutput)
      && (r.verdict.Admit? ==> e.id in t.holds && t.holds[e.id] == r.reserve)
  {
    hide Run, LearnedOutputs, Average, OutputAverage, Step, Cover, StatsKept, Holding;
    ReadIsAverage(p, clock, es);
    ReportedHold(p, later, e);
    HoldingOf(p, e);
  }

  /** What a gateway reads is the average of the run, if it reads at all. */
  lemma ReadIsAverage(p: Policy, clock: int, es: seq<Event>)
    requires StatsKept(p, Empty(clock), es)
    ensures var outputs := LearnedOutputs(p, Empty(clock), es); var read := OutputAverage(p, Run(p, Empty(clock), es));
      if p.mode == Adaptive && outputs != [] then read == Average(outputs) && 0.0 < read else read == 0.0
  {
    hide Run, LearnedOutputs, Learned, Average, Peak, StatsKept, ServiceTime, ServiceEstimate;
    RunStats(p, clock, es);
  }

  lemma HoldingOf(p: Policy, e: Event)
    requires e.Reserve?
    ensures Holding(p, e) == e.prompt + (
      if p.mode == Adaptive && 0.0 < e.observed then Cover(p, e.observed, e.maxOutput) else e.maxOutput)
  {
  }

  // ----- How long the statistics last -----

  lemma {:induction false} StatsLast(p: Policy, s: Db, es: seq<Event>)
    requires (forall i :: 0 <= i < |es| ==> !es[i].Commit?) && s.clock < s.statsUntil
    ensures Run(p, s, es).stats == if s.clock + Elapsed(es) < s.statsUntil then s.stats else NO_STATS
    decreases |es|
  {
    hide Step;
    if es != [] {
      var e, t := es[0], Step(p, s, es[0]).0;
      StepStatsKey(p, s, e);
      assert forall i :: 0 <= i < |es[1..]| ==> es[1..][i] == es[i + 1];
      if t.clock < t.statsUntil {
        StatsLast(p, t, es[1..]);
      } else {
        StatsStayGone(p, t, es[1..]);
      }
    }
  }

  lemma StepStatsKey(p: Policy, s: Db, e: Event)
    requires !e.Commit?
    ensures var t, ms := Step(p, s, e).0, if e.Tick? then e.ms else 0;
      && t.clock == s.clock + ms && t.statsUntil == s.statsUntil
      && t.stats == if e.Tick? && s.statsUntil <= s.clock + ms then NO_STATS else s.stats
  {
    hide Decide, PredictedWait, Prepare;
  }

  lemma {:induction false} StatsStayGone(p: Policy, s: Db, es: seq<Event>)
    requires (forall i :: 0 <= i < |es| ==> !es[i].Commit?) && s.stats == NO_STATS
    ensures Run(p, s, es).stats == NO_STATS
    decreases |es|
  {
    hide Step;
    if es != [] {
      StepStatsKey(p, s, es[0]);
      assert forall i :: 0 <= i < |es[1..]| ==> es[1..][i] == es[i + 1];
      StatsStayGone(p, Step(p, s, es[0]).0, es[1..]);
    }
  }

  /**
   * Without further commits the statistics last for one key lifetime, two leases
   * and a minute but two minutes at least, and are then forgotten altogether.
   */
  lemma StatsForgotten(p: Policy, s: Db, c: Event, es: seq<Event>, now: int)
    requires c.Commit? && c.id !in s.settled && forall i :: 0 <= i < |es| ==> !es[i].Commit?
    ensures var t := Step(p, s, c).0;
            var shown, later := Step(p, t, Snapshot(now)).1, Step(p, Run(p, t, es), Snapshot(now)).1;
      && shown.SnapshotReply? && later.SnapshotReply?
      && (later.service, later.output, later.peak)
         == if Elapsed(es) < 1000 * Max(120, 2 * p.leaseSeconds + 60) then (shown.service, shown.output, shown.peak)
            else (2000, 0, 0)
  {
    hide Run, Observe, Refill, CurrentBalance, Elapsed;
    var t := Step(p, s, c).0;
    CommitShape(p, s, c);
    StatsLast(p, t, es);
  }

  // ----- The output average and its peak -----

  /** The output average exists exactly when the peak does, and never exceeds it. */
  ghost predicate PeakTops(st: Stats) {
    && (st.output.Some? <==> st.peak.Some?)
    && (st.output.Some? ==> st.output.value <= st.peak.value as real)
  }

  lemma ObservePeak(st: Stats, serviceMs: nat, output: nat)
    requires PeakTops(st)
    ensures PeakTops(Observe(st, serviceMs, output))
  {
    if output > 0 {
      EwmaAtMost(st.output, output, (if st.peak.Some? then Max(st.peak.value, output) else output) as real);
    }
  }

  lemma EwmaAtMost(prev: Option<real>, sample: nat, hi: real)
    requires sample as real <= hi && (prev.Some? ==> prev.value <= hi)
    ensures Ewma(prev, sample) <= hi
  {
  }

  lemma StepOutput(p: Policy, s: Db, e: Event, lo: real, hi: real)
    requires Within(s.stats.output, lo, hi)
    requires e.Commit? && Writes(s, e) && e.output > 0 ==> lo <= e.output as real <= hi
    ensures Within(Step(p, s, e).0.stats.output, lo, hi)
  {
    hide Step, Ewma;
    StepStats(p, s, e);
    if e.Commit? && Writes(s, e) && e.output > 0 {
      EwmaWithin(s.stats.output, e.output, lo, hi);
    }
  }

  /** The output average never leaves the range of its samples, nor exceeds the recorded peak. */
  lemma {:induction false} OutputContained(p: Policy, s: Db, es: seq<Event>, lo: real, hi: real)
    requires Within(s.stats.output, lo, hi) && PeakTops(s.stats) && OutputSamples(p, s, es, lo, hi)
    ensures Within(Run(p, s, es).stats.output, lo, hi)
    ensures PeakTops(Run(p, s, es).stats)
    decreases |es|
  {
    hide Step, Observe;
    if es != [] {
      StepStats(p, s, es[0]);
      StepOutput(p, s, es[0], lo, hi);
      if es[0].Commit? && Writes(s, es[0]) {
        ObservePeak(s.stats, es[0].serviceMs, es[0].output);
      }
      OutputContained(p, Step(p, s, es[0]).0, es[1..], lo, hi);
    }
  }

  // ----- Sizing from a stale read -----

  /** Every reserve was sized from an average read at some earlier point of the run, or just before it. */
  ghost predicate StaleReads(p: Policy, s: Db, es: seq<Event>, seen: set<real>)
    decreases |es|
  {
    es != [] ==>
      && (es[0].Reserve? ==> es[0].observed in seen + {OutputAverage(p, s)})
      && StaleReads(p, Step(p, s, es[0]).0, es[1..], seen + {OutputAverage(p, s)})
  }

  /** The hold of a reserve, between what the least and the greatest sample would have held. */
  ghost predicate Sized(p: Policy, e: Event, lo: real, hi: real)
    requires e.Reserve?
  {
    var hold := Holding(p, e);
    && e.prompt + 1 <= hold <= e.prompt + e.maxOutput
    && (hold == e.prompt + e.maxOutput
        || (EstimateReservation(Adaptive, p.safety, e.prompt, e.maxOutput, lo).reserveTokens <= hold
            <= EstimateReservation(Adaptive, p.safety, e.prompt, e.maxOutput, hi).reserveTokens))
  }

  lemma SizedFromRead(p: Policy, e: Event, lo: real, hi: real)
    requires e.Reserve? && 0.0 < lo <= hi
    requires e.observed == 0.0 || lo <= e.observed <= hi
    ensures Sized(p, e, lo, hi)
  {
    HoldWithinDeclaration(p.mode, p.safety, e.prompt, e.maxOutput, e.observed);
    if p.mode == Adaptive && e.observed != 0.0 {
      HoldMonotone(p.safety, e.prompt, e.maxOutput, lo, e.observed);
      HoldMonotone(p.safety, e.prompt, e.maxOutput, e.observed, hi);
    }
  }

  ghost predicate AllSized(p: Policy, es: seq<Event>, lo: real, hi: real) {
    forall e :: e in es && e.Reserve? ==> Sized(p, e, lo, hi)
  }

  /**
   * However stale the read, a hold never exceeds the declaration, always covers
   * the prompt and one token, and unless it is the full declaration lies
   * between what the least and the greatest output seen would have held.
   */
  lemma {:induction false} HoldsSized(p: Policy, s: Db, es: seq<Event>, seen: set<real>, lo: real, hi: real)
    requires 0.0 < lo <= hi
    requires Within(s.stats.output, lo, hi) && OutputSamples(p, s, es, lo, hi)
    requires forall x :: x in seen ==> x == 0.0 || lo <= x <= hi
    requires StaleReads(p, s, es, seen)
    ensures AllSized(p, es, lo, hi)
    decreases |es|
  {
    hide Step, Sized;
    if es != [] {
      if es[0].Reserve? {
        SizedFromRead(p, es[0], lo, hi);
      }
      StepOutput(p, s, es[0], lo, hi);
      HoldsSized(p, Step(p, s, es[0]).0, es[1..], seen + {OutputAverage(p, s)}, lo, hi);
      assert forall e :: e in es ==> e == es[0] || e in es[1..];
    }
  }

  // ----- The predicted wait -----

  /** `x` in proportion a to k. */
  function Scaled(a: int, k: pos, x: real): real {
    (a as real / k as real) * x
  }

  lemma ScaledMonotone(a: int, b: int, k: pos, x: real, y: real)
    requires 0 <= a <= b && 0.0 <= x <= y
    ensures Scaled(a, k, x) <= Scaled(b, k, y)
  {
    var u, v := a as real / k as real, b as real / k as real;
    assert 0.0 <= u <= v;
    assert u * x <= v * x;
    assert v * x <= v * y;
  }

  /** The longest wait an admitted request can be told: a full queue in front of it, at the slowest service seen. */
  function LongestWait(p: Policy, slowest: real): int {
    Ceil(Scaled(p.maxQueueDepth, p.maxConcurrency, Slowest(slowest)))
  }

  function Slowest(sample: real): real {
    if COLD_START_SERVICE_MS <= sample then sample else COLD_START_SERVICE_MS
  }

  lemma WaitIsScaled(p: Policy, inflight: nat, service: real)
    ensures PredictedWait(p, inflight, service)
         == Ceil(Scaled(Max(0, inflight + 1 - p.maxConcurrency), p.maxConcurrency, service))
  {
    if inflight < p.maxConcurrency {
      assert Scaled(0, p.maxConcurrency, service) == 0.0;
    }
  }

  lemma WaitBounded(p: Policy, inflight: nat, service: real, slowest: real)
    requires inflight < p.maxConcurrency + p.maxQueueDepth
    requires 0.0 <= service && (service <= slowest || service == COLD_START_SERVICE_MS)
    ensures PredictedWait(p, inflight, service) <= LongestWait(p, slowest)
  {
    hide Scaled, Ceil, PredictedWait;
    var ahead, most := Max(0, inflight + 1 - p.maxConcurrency), Slowest(slowest);
    WaitIsScaled(p, inflight, service);
    ScaledMonotone(ahead, p.maxQueueDepth, p.maxConcurrency, service, most);
    CeilMonotone(Scaled(ahead, p.maxConcurrency, service), Scaled(p.maxQueueDepth, p.maxConcurrency, most));
  }

  /**
   * Nobody waits while a slot is free, and the last request of the k-th batch
   * behind the running one waits exactly k service times, rounded up.
   */
  lemma WaitIsWholeBatches(p: Policy, inflight: nat, k: nat, service: real)
    requires 0.0 <= service
    ensures inflight < p.maxConcurrency ==> PredictedWait(p, inflight, service) == 0
    ensures inflight + 1 == p.maxConcurrency * (k + 1) ==> PredictedWait(p, inflight, service) == Ceil(k as real * service)
  {
    hide Ceil;
    if inflight + 1 == p.maxConcurrency * (k + 1) {
      assert inflight + 1 - p.maxConcurrency == p.maxConcurrency * k;
      WholeQuotient(p.maxConcurrency, k);
      if k == 0 {
        CeilOfZero(service);
      } else {
        MulMonotone(1, k, p.maxConcurrency);
      }
    }
  }

  /**
   * In general the wait is the least whole number of milliseconds that covers
   * the service time times the requests ahead of this one over the slots.
   */
  lemma WaitIsLeast(p: Policy, inflight: nat, service: real)
    requires p.maxConcurrency <= inflight
    ensures var wait, ahead := PredictedWait(p, inflight, service), inflight + 1 - p.maxConcurrency;
      (wait as real - 1.0) * p.maxConcurrency as real < ahead as real * service <= wait as real * p.maxConcurrency as real
  {
    var c, ahead := p.maxConcurrency as real, (inflight + 1 - p.maxConcurrency) as real;
    var wait := PredictedWait(p, inflight, service);
    var exact := (ahead / c) * service;
    Unscale(ahead, c, service);
    Stretch(wait as real - 1.0, exact, c);
    StretchAtMost(exact, wait as real, c);
  }

  lemma Unscale(a: real, c: real, k: real)
    requires c != 0.0
    ensures ((a / c) * k) * c == a * k
  {
    assert ((a / c) * k) * c == ((a / c) * c) * k;
  }

  lemma Stretch(a: real, b: real, c: real)
    requires a < b && 0.0 < c
    ensures a * c < b * c
  {
  }

  lemma StretchAtMost(a: real, b: real, c: real)
    requires a <= b && 0.0 < c
    ensures a * c <= b * c
  {
  }

  lemma WholeQuotient(c: pos, k: nat)
    ensures (c * k) as real / c as real == k as real
  {
    assert (c * k) as real == c as real * k as real;
  }

  lemma CeilOfZero(service: real)
    ensures Ceil(0.0 * service) == 0
  {
  }

  lemma AdmittedWait(p: Policy, s: Db, e: Event)
    requires e.Reserve? && Step(p, s, e).1.verdict.Admit?
    ensures var n := |Prepare(p, s, e.now).leases|;
      && n < p.maxConcurrency + p.maxQueueDepth
      && Step(p, s, e).1.predictedWaitMs == PredictedWait(p, n, ServiceEstimate(s))
      && (e.slo > 0 ==> Step(p, s, e).1.predictedWaitMs <= e.slo)
  {
    hide PredictedWait, Due, HeldBy;
    assert Step(p, s, e) == ReserveStep(p, s, e.now, Holding(p, e), e.id, e.slo);
  }

  /**
   * After any run whose service samples are at most `slowest`, an admitted
   * request is predicted to wait no longer than a full queue at that pace, and
   * never past its own deadline.
   */
  lemma PredictedWaitBounded(p: Policy, clock: int, es: seq<Event>, slowest: real, e: Event)
    requires ServiceSamples(p, Empty(clock), es, 0.0, slowest)
    requires e.Reserve? && Step(p, Run(p, Empty(clock), es), e).1.verdict.Admit?
    ensures Step(p, Run(p, Empty(clock), es), e).1.predictedWaitMs <= LongestWait(p, slowest)
    ensures e.slo > 0 ==> Step(p, Run(p, Empty(clock), es), e).1.predictedWaitMs <= e.slo
  {
    var s := Run(p, Empty(clock), es);
    ServiceContained(p, Empty(clock), es, 0.0, slowest);
    AdmittedWait(p, s, e);
    WaitBounded(p, |Prepare(p, s, e.now).leases|, ServiceEstimate(s), slowest);
  }
}
