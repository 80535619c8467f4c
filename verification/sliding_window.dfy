/** The sliding-window log: SLIDING_WINDOW_SCRIPT over one sorted set. */
module SlidingWindow {
  import opened Basics
  import opened SortedSet

  /** The sorted set: each member scored by the time it was admitted. */
  type Log = map<Member, nat>

  datatype Config = Config(windowMs: pos, limit: nat)

  datatype Call = Call(now: nat, member: Member)

  datatype Reply = Reply(allowed: bool, count: nat, resetAt: int, retryAfterMs: int)

  /** ZREMRANGEBYSCORE key 0 upTo. */
  function Prune(log: Log, upTo: int): Log {
    map k | k in log && log[k] > upTo :: log[k]
  }

  /** Score of the first member: ZRANGE key 0 0 WITHSCORES. */
  function Oldest(log: Log): (score: nat)
    requires log != map[]
    ensures exists k :: k in log && log[k] == score
    ensures forall j :: j in log ==> score <= log[j]
  {
    log[First(log, log.Keys)]
  }

  function Step(c: Config, log: Log, call: Call): (Log, Reply) {
    var kept := Prune(log, call.now - c.windowMs);
    if |kept| < c.limit then
      (kept[call.member := call.now], Reply(true, |kept| + 1, call.now + c.windowMs, 0))
    else
      var retry := if kept == map[] then c.windowMs else Max(0, Oldest(kept) + c.windowMs - call.now);
      (kept, Reply(false, |kept|, call.now + retry, retry))
  }

  function Run(c: Config, log: Log, calls: seq<Call>): Log
    decreases |calls|
  {
    if calls == [] then log else Run(c, Step(c, log, calls[0]).0, calls[1..])
  }

  function Replies(c: Config, log: Log, calls: seq<Call>): (rs: seq<Reply>)
    ensures |rs| == |calls|
    decreases |calls|
  {
    if calls == [] then []
    else
      var (next, r) := Step(c, log, calls[0]);
      [r] + Replies(c, next, calls[1..])
  }

  // ----- The full, unbounded log -----

  /** Every admission of the history `hist` that is newer than one window. */
  function Recent(hist: Log, now: nat, windowMs: nat): Log {
    map k | k in hist && now - windowMs < hist[k] :: hist[k]
  }

  /** The policy itself: admit while fewer than `limit` admissions of the last window are on record. */
  predicate Permits(c: Config, hist: Log, now: nat) {
    |Recent(hist, now, c.windowMs)| < c.limit
  }

  /** The history after one call under that policy. */
  function Recorded(c: Config, hist: Log, call: Call): Log {
    if Permits(c, hist, call.now) then hist[call.member := call.now] else hist
  }

  function History(c: Config, hist: Log, calls: seq<Call>): Log
    decreases |calls|
  {
    if calls == [] then hist else History(c, Recorded(c, hist, calls[0]), calls[1..])
  }

  function Verdicts(c: Config, hist: Log, calls: seq<Call>): (vs: seq<bool>)
    ensures |vs| == |calls|
    decreases |calls|
  {
    if calls == [] then []
    else [Permits(c, hist, calls[0].now)] + Verdicts(c, Recorded(c, hist, calls[0]), calls[1..])
  }

  /** Calls in time order, each with a member not used before. */
  predicate Proper(from: nat, used: set<Member>, calls: seq<Call>)
    decreases |calls|
  {
    calls != [] ==>
      && from <= calls[0].now
      && calls[0].member !in used
      && Proper(calls[0].now, used + {calls[0].member}, calls[1..])
  }

  function LastTime(from: nat, calls: seq<Call>): nat
    decreases |calls|
  {
    if calls == [] then from else LastTime(calls[0].now, calls[1..])
  }

  /** Some lower part of the log may be gone, but nothing a window ending at `now` or later can see. */
  ghost predicate Agrees(c: Config, log: Log, hist: Log, now: nat) {
    && log.Keys <= hist.Keys
    && (forall k :: k in log ==> log[k] == hist[k])
    && (forall k :: k in hist ==> hist[k] <= now)
    && (forall k :: k in hist && now - c.windowMs < hist[k] ==> k in log)
  }

  lemma PrunedIsRecent(c: Config, log: Log, hist: Log, from: nat, now: nat)
    requires Agrees(c, log, hist, from) && from <= now
    ensures Prune(log, now - c.windowMs) == Recent(hist, now, c.windowMs)
  {
  }

  lemma StepRefines(c: Config, log: Log, hist: Log, from: nat, call: Call)
    requires Agrees(c, log, hist, from) && from <= call.now && call.member !in hist
    ensures Step(c, log, call).1.allowed == Permits(c, hist, call.now)
    ensures Agrees(c, Step(c, log, call).0, Recorded(c, hist, call), call.now)
    ensures Step(c, log, call).0 == Recent(Recorded(c, hist, call), call.now, c.windowMs)
  {
    PrunedIsRecent(c, log, hist, from, call.now);
    hide Prune, Oldest;
    var kept, hist' := Prune(log, call.now - c.windowMs), Recorded(c, hist, call);
    if Permits(c, hist, call.now) {
      assert kept[call.member := call.now] == Recent(hist', call.now, c.windowMs);
    }
  }

  /**
   * The pruned set refines the full log: every reply is the verdict of the
   * unbounded history, and after every call the set is exactly the part of the
   * history newer than one window.
   */
  lemma {:induction false} RefinesFullLog(c: Config, log: Log, hist: Log, from: nat, calls: seq<Call>)
    requires Agrees(c, log, hist, from) && Proper(from, hist.Keys, calls)
    ensures SameVerdicts(Replies(c, log, calls), Verdicts(c, hist, calls))
    ensures calls != [] ==>
      Run(c, log, calls) == Recent(History(c, hist, calls), LastTime(from, calls), c.windowMs)
    decreases |calls|
  {
    if calls != [] {
      var call, rest := calls[0], calls[1..];
      var (next, r) := Step(c, log, call);
      var hist' := Recorded(c, hist, call);
      StepRefines(c, log, hist, from, call);
      ProperShrinks(call.now, hist.Keys + {call.member}, hist'.Keys, rest);
      RefinesFullLog(c, next, hist', call.now, rest);
      SameVerdictsCons(r, Permits(c, hist, call.now), Replies(c, next, rest), Verdicts(c, hist', rest));
    }
  }

  ghost predicate SameVerdicts(rs: seq<Reply>, vs: seq<bool>) {
    |rs| == |vs| && forall i :: 0 <= i < |rs| ==> rs[i].allowed == vs[i]
  }

  lemma SameVerdictsCons(r: Reply, v: bool, rs: seq<Reply>, vs: seq<bool>)
    requires r.allowed == v && SameVerdicts(rs, vs)
    ensures SameVerdicts([r] + rs, [v] + vs)
  {
  }

  lemma {:induction false} ProperShrinks(from: nat, used: set<Member>, fewer: set<Member>, calls: seq<Call>)
    requires Proper(from, used, calls) && fewer <= used
    ensures Proper(from, fewer, calls)
    decreases |calls|
  {
    if calls != [] {
      ProperShrinks(calls[0].now, used + {calls[0].member}, fewer + {calls[0].member}, calls[1..]);
    }
  }

  /** Admissions inside the interval (start, start + window]. */
  function Within(hist: Log, start: int, windowMs: nat): set<Member> {
    set k | k in hist && start < hist[k] <= start + windowMs
  }

  ghost predicate Bounded(c: Config, hist: Log) {
    forall start: int :: |Within(hist, start, c.windowMs)| <= c.limit
  }

  lemma AdmitKeepsBound(c: Config, hist: Log, now: nat, member: Member)
    requires Bounded(c, hist) && member !in hist
    requires forall k :: k in hist ==> hist[k] <= now
    requires Permits(c, hist, now)
    ensures Bounded(c, hist[member := now])
  {
    var hist' := hist[member := now];
    var recent := Recent(hist, now, c.windowMs);
    forall start: int ensures |Within(hist', start, c.windowMs)| <= c.limit {
      var inside := Within(hist', start, c.windowMs);
      if member in inside {
        assert inside - {member} <= recent.Keys;
        SubsetSize(inside - {member}, recent.Keys);
      } else {
        assert inside <= Within(hist, start, c.windowMs);
        SubsetSize(inside, Within(hist, start, c.windowMs));
      }
    }
  }

  /**
   * Exactness: over the whole history of a run, every interval one window long
   * holds at most `limit` admissions.
   */
  lemma {:induction false} EveryWindowBounded(c: Config, hist: Log, from: nat, calls: seq<Call>)
    requires Bounded(c, hist) && Proper(from, hist.Keys, calls)
    requires forall k :: k in hist ==> hist[k] <= from
    ensures Bounded(c, History(c, hist, calls))
    decreases |calls|
  {
    if calls != [] {
      var call := calls[0];
      if Permits(c, hist, call.now) {
        AdmitKeepsBound(c, hist, call.now, call.member);
      }
      var hist' := Recorded(c, hist, call);
      ProperShrinks(call.now, hist.Keys + {call.member}, hist'.Keys, calls[1..]);
      EveryWindowBounded(c, hist', call.now, calls[1..]);
    }
  }

  // ----- What is left -----

  /** The `remaining` of a reply. */
  function Remaining(c: Config, r: Reply): nat {
    Max(0, c.limit - r.count)
  }

  /** Further calls at one instant, each with a member of its own. */
  predicate Simultaneous(now: nat, used: set<Member>, calls: seq<Call>)
    decreases |calls|
  {
    calls != [] ==>
      && calls[0].now == now && calls[0].member !in used
      && Simultaneous(now, used + {calls[0].member}, calls[1..])
  }

  /** Nothing in the log has aged out. */
  ghost predicate Current(c: Config, log: Log, now: nat) {
    forall k :: k in log ==> now - c.windowMs < log[k]
  }

  lemma OneMore(c: Config, log: Log, call: Call)
    requires Current(c, log, call.now) && call.member !in log
    ensures var (next, r) := Step(c, log, call);
      && (r.allowed <==> |log| < c.limit)
      && |next| == |log| + (if r.allowed then 1 else 0)
      && Current(c, next, call.now) && next.Keys <= log.Keys + {call.member}
  {
    hide Oldest;
    assert Prune(log, call.now - c.windowMs) == log;
    assert log[call.member := call.now].Keys == log.Keys + {call.member};
  }

  /** One of such calls, and what it leaves for the others. */
  lemma RoomStep(c: Config, log: Log, now: nat, used: set<Member>, calls: seq<Call>, i: nat)
    requires log.Keys <= used && Simultaneous(now, used, calls) && i < |calls| && Current(c, log, now)
    ensures var (next, r) := Step(c, log, calls[0]); var used' := used + {calls[0].member};
      && (r.allowed <==> |log| < c.limit)
      && |next| == |log| + (if r.allowed then 1 else 0)
      && next.Keys <= used' && Simultaneous(now, used', calls[1..]) && Current(c, next, now)
      && Replies(c, log, calls)[i].allowed == if i == 0 then r.allowed else Replies(c, next, calls[1..])[i - 1].allowed
  {
    hide Step, Current, Simultaneous, Replies;
    SimultaneousHead(now, used, calls);
    OneMore(c, log, calls[0]);
    ReplyAt(c, log, calls, i);
  }

  lemma {:induction false} RoomLeft(c: Config, log: Log, now: nat, used: set<Member>, calls: seq<Call>, i: nat)
    requires log.Keys <= used && Simultaneous(now, used, calls) && i < |calls| && Current(c, log, now)
    ensures Replies(c, log, calls)[i].allowed <==> |log| + i < c.limit
    decreases |calls|
  {
    hide Step, Current, Simultaneous, Replies;
    RoomStep(c, log, now, used, calls, i);
    if i > 0 {
      RoomLeft(c, Step(c, log, calls[0]).0, now, used + {calls[0].member}, calls[1..], i - 1);
    }
  }

  lemma ReplyAt(c: Config, log: Log, calls: seq<Call>, i: nat)
    requires i < |calls|
    ensures var (next, r) := Step(c, log, calls[0]);
      Replies(c, log, calls)[i] == if i == 0 then r else Replies(c, next, calls[1..])[i - 1]
  {
    hide Step;
  }

  lemma SimultaneousHead(now: nat, used: set<Member>, calls: seq<Call>)
    requires calls != [] && Simultaneous(now, used, calls)
    ensures calls[0].now == now && calls[0].member !in used
    ensures Simultaneous(now, used + {calls[0].member}, calls[1..])
  {
  }

  lemma CountIsSize(c: Config, log: Log, call: Call)
    requires call.member !in log
    ensures var (next, r) := Step(c, log, call);
      && |next| == r.count && (!r.allowed ==> c.limit <= r.count)
      && Current(c, next, call.now) && next.Keys <= log.Keys + {call.member}
  {
    hide Oldest;
    var kept := Prune(log, call.now - c.windowMs);
    assert kept[call.member := call.now].Keys == kept.Keys + {call.member};
  }

  /** `remaining` is exact: of any further calls at the same instant, precisely that many are admitted, the first ones. */
  lemma RemainingIsExact(c: Config, log: Log, call: Call, more: seq<Call>, i: nat)
    requires call.member !in log && Simultaneous(call.now, log.Keys + {call.member}, more) && i < |more|
    ensures Replies(c, Step(c, log, call).0, more)[i].allowed <==> i < Remaining(c, Step(c, log, call).1)
  {
    hide Step, Current;
    CountIsSize(c, log, call);
    RoomLeft(c, Step(c, log, call).0, call.now, log.Keys + {call.member}, more, i);
  }

  // ----- Retry-After -----

  ghost predicate AllRejected(rs: seq<Reply>) {
    forall i :: 0 <= i < |rs| ==> !rs[i].allowed
  }

  predicate Ordered(from: nat, calls: seq<Call>)
    decreases |calls|
  {
    calls != [] ==> from <= calls[0].now && Ordered(calls[0].now, calls[1..])
  }

  /** A rejected caller leaves no trace: what a later call finds is what it would have found anyway. */
  lemma {:induction false} RejectionsLeaveNoTrace(c: Config, log: Log, from: nat, polls: seq<Call>, at: nat)
    requires Ordered(from, polls) && LastTime(from, polls) <= at
    requires AllRejected(Replies(c, log, polls))
    ensures Prune(Run(c, log, polls), at - c.windowMs) == Prune(log, at - c.windowMs)
    ensures from <= at
    decreases |polls|
  {
    if polls != [] {
      var (next, r) := Step(c, log, polls[0]);
      assert Replies(c, log, polls)[0] == r;
      assert forall i :: 0 <= i < |polls| - 1 ==>
        Replies(c, next, polls[1..])[i] == Replies(c, log, polls)[i + 1];
      RejectionsLeaveNoTrace(c, next, polls[0].now, polls[1..], at);
      assert next == Prune(log, polls[0].now - c.windowMs);
    }
  }

  lemma AllowedShape(c: Config, log: Log, call: Call)
    ensures Step(c, log, call).1.allowed <==> |Prune(log, call.now - c.windowMs)| < c.limit
  {
  }

  lemma RejectedShape(c: Config, log: Log, call: Call)
    requires 0 < c.limit && !Step(c, log, call).1.allowed
    ensures var (kept, r) := Step(c, log, call);
      && kept != map[] && c.limit <= |kept|
      && call.now < Oldest(kept) + c.windowMs
      && r.retryAfterMs == Oldest(kept) + c.windowMs - call.now
      && r.resetAt == Oldest(kept) + c.windowMs
  {
  }

  /** What is left of a log once its oldest instant has aged out. */
  function Rest(log: Log): Log
    requires log != map[]
  {
    Prune(log, Oldest(log))
  }

  /** A full log has no room before its oldest instant ages out, and from then on it has at least what that frees. */
  lemma FreesWithOldest(c: Config, log: Log, at: nat)
    requires log != map[] && c.limit <= |log|
    ensures |Prune(log, at - c.windowMs)| < c.limit ==> Oldest(log) + c.windowMs <= at
    ensures Oldest(log) + c.windowMs <= at && |Rest(log)| < c.limit ==> |Prune(log, at - c.windowMs)| < c.limit
    ensures Prune(log, Oldest(log) + c.windowMs - c.windowMs) == Rest(log)
  {
    var later := Prune(log, at - c.windowMs);
    if at < Oldest(log) + c.windowMs {
      assert later == log;
    } else {
      SubsetSize(later.Keys, Rest(log).Keys);
    }
  }

  /** Grants after a rejection and further rejected calls: never early, and on time if the oldest instant frees enough. */
  lemma GrantedAgain(c: Config, log: Log, call: Call, polls: seq<Call>, at: nat, member: Member)
    requires 0 < c.limit && !Step(c, log, call).1.allowed
    requires Ordered(call.now, polls) && LastTime(call.now, polls) <= at
    requires AllRejected(Replies(c, Step(c, log, call).0, polls))
    ensures var (kept, r) := Step(c, log, call);
            var allowed := Step(c, Run(c, kept, polls), Call(at, member)).1.allowed;
      && 0 < r.retryAfterMs && kept != map[] && r.resetAt == call.now + r.retryAfterMs
      && (allowed ==> call.now + r.retryAfterMs <= at)
      && (|Rest(kept)| < c.limit && call.now + r.retryAfterMs <= at ==> allowed)
      && (at == call.now + r.retryAfterMs ==> (allowed <==> |Rest(kept)| < c.limit))
  {
    hide Step, Run, Replies, Prune, Oldest, Rest;
    var (kept, r) := Step(c, log, call);
    RejectedShape(c, log, call);
    RejectionsLeaveNoTrace(c, kept, call.now, polls, at);
    AllowedShape(c, Run(c, kept, polls), Call(at, member));
    FreesWithOldest(c, kept, at);
  }

  lemma StepWithinLimit(c: Config, log: Log, call: Call)
    requires |log| <= c.limit
    ensures |Step(c, log, call).0| <= c.limit
  {
    var kept := Prune(log, call.now - c.windowMs);
    SubsetSize(kept.Keys, log.Keys);
    assert kept[call.member := call.now].Keys == kept.Keys + {call.member};
  }

  /** Under one limit the set never outgrows it. */
  lemma {:induction false} RunWithinLimit(c: Config, log: Log, calls: seq<Call>)
    requires |log| <= c.limit
    ensures |Run(c, log, calls)| <= c.limit
    decreases |calls|
  {
    if calls != [] {
      StepWithinLimit(c, log, calls[0]);
      RunWithinLimit(c, Step(c, log, calls[0]).0, calls[1..]);
    }
  }

  lemma RestIsSmaller(log: Log)
    requires log != map[]
    ensures |Rest(log)| < |log|
  {
    var k :| k in log && log[k] == Oldest(log);
    assert k !in Rest(log);
    SubsetSize(Rest(log).Keys, log.Keys - {k});
  }

  /**
   * The advertised delay is exact: after any calls under one limit, a
   * rejection, and any number of further rejected calls, a call is granted from
   * `now + retryAfterMs`, which is also `resetAt`, on and at no earlier time.
   */
  lemma RetryAfterIsLeast(c: Config, before: seq<Call>, call: Call, polls: seq<Call>, at: nat, member: Member)
    requires 0 < c.limit && !Step(c, Run(c, map[], before), call).1.allowed
    requires Ordered(call.now, polls) && LastTime(call.now, polls) <= at
    requires AllRejected(Replies(c, Step(c, Run(c, map[], before), call).0, polls))
    ensures var (kept, r) := Step(c, Run(c, map[], before), call);
      && 0 < r.retryAfterMs
      && (Step(c, Run(c, kept, polls), Call(at, member)).1.allowed <==> call.now + r.retryAfterMs <= at)
      && (Step(c, Run(c, kept, polls), Call(at, member)).1.allowed <==> r.resetAt <= at)
  {
    hide Step, Replies, Rest;
    var log := Run(c, map[], before);
    RunWithinLimit(c, map[], before);
    StepWithinLimit(c, log, call);
    GrantedAgain(c, log, call, polls, at, member);
    RestIsSmaller(Step(c, log, call).0);
  }

  // ----- The reset time -----

  /** Calls in time order leave nothing newer than the last of them. */
  lemma {:induction false} RunTimes(c: Config, log: Log, from: nat, calls: seq<Call>)
    requires Ordered(from, calls) && forall k :: k in log ==> log[k] <= from
    ensures forall k :: k in Run(c, log, calls) ==> Run(c, log, calls)[k] <= LastTime(from, calls)
    decreases |calls|
  {
    if calls != [] {
      hide Oldest;
      RunTimes(c, Step(c, log, calls[0]).0, calls[0].now, calls[1..]);
    }
  }

  /** Where an admission leaves the set, if nothing in it was newer. */
  lemma AdmittedShape(c: Config, log: Log, call: Call, at: nat)
    requires Step(c, log, call).1.allowed && call.now <= at
    requires forall k :: k in log ==> log[k] <= call.now
    ensures var (next, r) := Step(c, log, call);
      && call.member in next
      && (Prune(next, at - c.windowMs) == map[] <==> r.resetAt <= at)
      && r.retryAfterMs == 0
  {
    hide Oldest;
    var (next, r) := Step(c, log, call);
    assert next[call.member] == call.now;
    if at < r.resetAt {
      assert call.member in Prune(next, at - c.windowMs);
    }
  }

  /**
   * `resetAt` is exact too. After calls in time order, an admission and any
   * number of rejected calls, it is the first instant at which no admission is
   * left in the window and the whole limit is available again.
   */
  lemma ResetAtIsLeast(c: Config, before: seq<Call>, call: Call, polls: seq<Call>, at: nat)
    requires Ordered(0, before) && LastTime(0, before) <= call.now
    requires Step(c, Run(c, map[], before), call).1.allowed
    requires Ordered(call.now, polls) && LastTime(call.now, polls) <= at
    requires AllRejected(Replies(c, Step(c, Run(c, map[], before), call).0, polls))
    ensures var (next, r) := Step(c, Run(c, map[], before), call);
      && (Prune(Run(c, next, polls), at - c.windowMs) == map[] <==> r.resetAt <= at)
      && r.retryAfterMs == 0
  {
    hide Step, Replies, Prune;
    var log := Run(c, map[], before);
    RunTimes(c, map[], 0, before);
    var next := Step(c, log, call).0;
    RejectionsLeaveNoTrace(c, next, call.now, polls, at);
    AdmittedShape(c, log, call, at);
  }

  /** With no limit to wait for, every call is turned away for one whole window. */
  lemma {:induction false} ZeroLimitNeverGrants(c: Config, calls: seq<Call>, i: nat)
    requires c.limit == 0 && i < |calls|
    ensures Replies(c, map[], calls)[i] == Reply(false, 0, calls[i].now + c.windowMs, c.windowMs)
    decreases |calls|
  {
    assert Prune(map[], calls[0].now - c.windowMs) == map[];
    if i > 0 {
      assert Step(c, map[], calls[0]).0 == map[];
      ZeroLimitNeverGrants(c, calls[1..], i - 1);
    }
  }

  /**
   * On any other stored set, one left behind by a higher limit say, still nothing
   * is granted before the advertised time, and the delay is exact if and only if
   * the instant it waits for frees enough.
   */
  lemma RetryAfterAfterLowering(c: Config, log: Log, call: Call, member: Member)
    requires 0 < c.limit && !Step(c, log, call).1.allowed
    ensures var (kept, r) := Step(c, log, call);
      && kept != map[]
      && (forall at: nat :: call.now <= at && Step(c, kept, Call(at, member)).1.allowed ==>
            call.now + r.retryAfterMs <= at)
      && ((forall at: nat :: call.now <= at ==>
             (Step(c, kept, Call(at, member)).1.allowed <==> call.now + r.retryAfterMs <= at))
          <==> |Rest(kept)| < c.limit)
  {
    hide Step, Rest, Oldest, Prune;
    var (kept, r) := Step(c, log, call);
    GrantedAgain(c, log, call, [], call.now, member);
    forall at: nat | call.now <= at
      ensures Step(c, kept, Call(at, member)).1.allowed ==> call.now + r.retryAfterMs <= at
      ensures |Rest(kept)| < c.limit && call.now + r.retryAfterMs <= at ==> Step(c, kept, Call(at, member)).1.allowed
    {
      GrantedAgain(c, log, call, [], at, member);
    }
    var on: nat := call.now + r.retryAfterMs;
    GrantedAgain(c, log, call, [], on, member);
    assert Step(c, kept, Call(on, member)).1.allowed <==> |Rest(kept)| < c.limit;
  }

  /** One call at the first instant and `n` at the next, each with a member of its own. */
  function Crowd(n: nat): seq<Call> {
    [Call(0, 0)] + Followers(n, 1)
  }

  function Followers(n: nat, first: Member): seq<Call>
    decreases n
  {
    if n == 0 then [] else [Call(1, first)] + Followers(n - 1, first + 1)
  }

  /** What such calls leave when there is room for all of them. */
  function CrowdLog(n: nat): (log: Log)
    ensures forall k: nat :: k in log <==> k <= n
    ensures forall k: nat :: k in log ==> log[k] == if k == 0 then 0 else 1
  {
    if n == 0 then map[0 := 0] else CrowdLog(n - 1)[n := 1]
  }

  lemma {:induction false} CrowdCount(n: nat)
    ensures |CrowdLog(n)| == n + 1
    decreases n
  {
    if n > 0 {
      CrowdCount(n - 1);
      assert n !in CrowdLog(n - 1);
    }
  }

  lemma CrowdSize(n: nat)
    ensures |CrowdLog(n)| == n + 1 && Oldest(CrowdLog(n)) == 0 && |Rest(CrowdLog(n))| == n
  {
    hide First;
    var log := CrowdLog(n);
    CrowdCount(n);
    assert 0 in log && log[0] == 0;
    assert Rest(log).Keys == log.Keys - {0};
  }

  lemma CrowdIsCurrent(n: nat, windowMs: pos)
    requires 2 <= windowMs
    ensures Prune(CrowdLog(n), 1 - windowMs) == CrowdLog(n)
    ensures CrowdLog(n + 1) == CrowdLog(n)[n + 1 := 1]
  {
  }

  lemma CrowdStep(c: Config, n: nat)
    requires 2 <= c.windowMs && n + 1 < c.limit
    ensures Step(c, CrowdLog(n), Call(1, n + 1)).0 == CrowdLog(n + 1)
  {
    hide Oldest, Prune, CrowdLog;
    CrowdCount(n);
    CrowdIsCurrent(n, c.windowMs);
  }

  lemma {:induction false} FollowersFit(c: Config, n: nat, already: nat)
    requires 2 <= c.windowMs && already + n + 1 <= c.limit
    ensures Run(c, CrowdLog(already), Followers(n, already + 1)) == CrowdLog(already + n)
    decreases n
  {
    hide Step, CrowdLog;
    if n > 0 {
      var calls := Followers(n, already + 1);
      assert calls[0] == Call(1, already + 1) && calls[1..] == Followers(n - 1, already + 2);
      CrowdStep(c, already);
      FollowersFit(c, n - 1, already + 1);
    }
  }

  lemma CrowdFits(c: Config, n: nat)
    requires 2 <= c.windowMs && n + 1 <= c.limit
    ensures Run(c, map[], Crowd(n)) == CrowdLog(n)
  {
    assert Crowd(n)[0] == Call(0, 0) && Crowd(n)[1..] == Followers(n, 1);
    assert Prune(map[], 0 - c.windowMs) == map[];
    assert Step(c, map[], Call(0, 0)).0 == CrowdLog(0);
    FollowersFit(c, n, 0);
  }

  /**
   * And lowering does make it too short: for every window of two milliseconds
   * or more and every lower limit, calls admitted under the higher one leave a
   * set on which the next call is rejected, and rejected again exactly when the
   * reply said to come back.
   */
  lemma LoweredDelayIsTooShort(windowMs: pos, high: nat, low: nat, member: Member)
    requires 2 <= windowMs && 0 < low < high
    ensures var before, after := Config(windowMs, high), Config(windowMs, low);
            var (kept, r) := Step(after, Run(before, map[], Crowd(low)), Call(1, low + 1));
      && Ordered(0, Crowd(low)) && !r.allowed && 0 < r.retryAfterMs
      && !Step(after, kept, Call(1 + r.retryAfterMs, member)).1.allowed
  {
    hide Step, Prune, Oldest, Rest, CrowdLog, Crowd;
    var before, after := Config(windowMs, high), Config(windowMs, low);
    var log, call := CrowdLog(low), Call(1, low + 1);
    CrowdFits(before, low);
    CrowdOrdered(low);
    CrowdSize(low);
    CrowdRejects(after, low);
    RejectedShape(after, log, call);
    GrantedAgain(after, log, call, [], 1 + Step(after, log, call).1.retryAfterMs, member);
  }

  lemma CrowdRejects(c: Config, n: nat)
    requires 2 <= c.windowMs && c.limit <= n + 1
    ensures var (kept, r) := Step(c, CrowdLog(n), Call(1, n + 1));
      kept == CrowdLog(n) && !r.allowed
  {
    hide Oldest, Prune, CrowdLog;
    CrowdCount(n);
    CrowdIsCurrent(n, c.windowMs);
  }

  lemma {:induction false} FollowersOrdered(n: nat, first: Member, from: nat)
    requires from <= 1
    ensures Ordered(from, Followers(n, first))
    decreases n
  {
    if n > 0 {
      assert Followers(n, first)[1..] == Followers(n - 1, first + 1);
      FollowersOrdered(n - 1, first + 1, 1);
    }
  }

  lemma CrowdOrdered(n: nat)
    ensures Ordered(0, Crowd(n))
  {
    assert Crowd(n)[1..] == Followers(n, 1);
    FollowersOrdered(n, 1, 0);
  }

  // ----- Key lifetime -----

  /** The sorted set with the instant Redis drops it. */
  datatype Key = Key(log: Log, until: int)

  function Live(k: Key, clock: int): Log {
    if k.until <= clock then map[] else k.log
  }

  function RepliesExpiring(c: Config, k: Key, calls: seq<Call>): (rs: seq<Reply>)
    decreases |calls|
  {
    if calls == [] then []
    else
      var (next, r) := Step(c, Live(k, calls[0].now), calls[0]);
      [r] + RepliesExpiring(c, Key(next, calls[0].now + c.windowMs), calls[1..])
  }

  /** The expiry of the key never changes a reply. */
  lemma {:induction false} ExpiryIsInvisible(c: Config, log: Log, from: nat, calls: seq<Call>)
    requires Ordered(from, calls)
    requires forall k :: k in log ==> log[k] <= from
    ensures RepliesExpiring(c, Key(log, from + c.windowMs), calls) == Replies(c, log, calls)
    decreases |calls|
  {
    if calls != [] {
      var now := calls[0].now;
      var live := Live(Key(log, from + c.windowMs), now);
      assert Prune(live, now - c.windowMs) == Prune(log, now - c.windowMs);
      ExpiryIsInvisible(c, Step(c, log, calls[0]).0, now, calls[1..]);
    }
  }

  // ----- The stored set -----

  class Store {
    var log: Log
    var until: int

    constructor ()
      ensures log == map[]
    {
      log, until := map[], 0;
    }

    /** One run of the script at `now`, on a key that may have expired by then. */
    method Check(c: Config, now: nat, member: Member) returns (r: Reply)
      modifies this
      ensures (log, r) == Step(c, old(Live(Key(log, until), now)), Call(now, member))
      ensures until == now + c.windowMs
    {
      if until <= now {
        log := map[];
      }
      log := Prune(log, now - c.windowMs);
      var count := |log|;
      if count < c.limit {
        log := log[member := now];
        until := now + c.windowMs;
        return Reply(true, count + 1, now + c.windowMs, 0);
      }
      var retry := c.windowMs;
      if log != map[] {
        retry := Max(0, Oldest(log) + c.windowMs - now);
      }
      until := now + c.windowMs;
      r := Reply(false, count, now + retry, retry);
    }

    method Reset()
      modifies this
      ensures log == map[]
    {
      log := map[];
    }
  }
}
