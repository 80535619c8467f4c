/** The token bucket: TOKEN_BUCKET_SCRIPT and the `check` that sizes its keys. */
module TokenBucket {
  import opened Basics
  import opened Budgets

  /** A bucket of `limit` tokens that refills in `windowSeconds`. */
  datatype Config = Config(limit: pos, windowSeconds: pos) {
    /** One token in grains; a millisecond then accrues exactly `limit` grains. */
    function Grain(): pos {
      1000 * windowSeconds
    }

    function Cap(): pos {
      MulMonotone(1, limit, Grain());
      limit * Grain()
    }

    /** The lifetime of both keys: ceil(limit / refillRate) + 1 seconds, refillRate being limit / windowSeconds. */
    function TtlMs(): int {
      1000 * (CeilDiv(limit * windowSeconds, limit) + 1)
    }
  }

  datatype Call = Call(now: int, cost: nat)

  datatype Reply = Reply(allowed: bool, remaining: int, resetAt: int, retryAfterMs: int)

  function Step(c: Config, b: Option<Bucket>, call: Call): (Bucket, Reply) {
    var current := Refill(b, call.now, c.limit, c.Cap());
    var asked := call.cost * c.Grain();
    var allowed := current >= asked;
    var left := if allowed then current - asked else current;
    var retry := if allowed then 0 else CeilDiv(asked - current, c.limit);
    (Bucket(left, call.now),
     Reply(allowed, FloorDiv(left, c.Grain()), call.now + CeilDiv(c.Cap() - left, c.limit), retry))
  }

  /** The keys as stored: a balance between empty and full. */
  predicate Valid(c: Config, b: Option<Bucket>) {
    b.Some? ==> 0 <= b.value.bal <= c.Cap()
  }

  function Run(c: Config, b: Option<Bucket>, calls: seq<Call>): Option<Bucket>
    decreases |calls|
  {
    if calls == [] then b else Run(c, Some(Step(c, b, calls[0]).0), calls[1..])
  }

  function Replies(c: Config, b: Option<Bucket>, calls: seq<Call>): (rs: seq<Reply>)
    ensures |rs| == |calls|
    decreases |calls|
  {
    if calls == [] then []
    else
      var (next, r) := Step(c, b, calls[0]);
      [r] + Replies(c, Some(next), calls[1..])
  }

  /** Tokens granted over a stretch of calls. */
  function Spent(calls: seq<Call>, rs: seq<Reply>): nat
    requires |rs| == |calls|
  {
    if calls == [] then 0
    else (if rs[0].allowed then calls[0].cost else 0) + Spent(calls[1..], rs[1..])
  }

  function LastWrite(b: Option<Bucket>): Option<int> {
    if b.None? then None else Some(b.value.ts)
  }

  /** Total forward movement of the clock over the calls, from the last write on. */
  function Forward(last: Option<int>, calls: seq<Call>): nat
    decreases |calls|
  {
    if calls == [] then 0
    else (if last.None? then 0 else Max(0, calls[0].now - last.value)) + Forward(Some(calls[0].now), calls[1..])
  }

  /** The calls arrive in time order, none of them before `from`. */
  predicate Ordered(from: int, calls: seq<Call>)
    decreases |calls|
  {
    calls != [] ==> from <= calls[0].now && Ordered(calls[0].now, calls[1..])
  }

  function LastTime(from: int, calls: seq<Call>): int
    decreases |calls|
  {
    if calls == [] then from else LastTime(calls[0].now, calls[1..])
  }

  lemma StepValid(c: Config, b: Option<Bucket>, call: Call)
    requires Valid(c, b)
    ensures Valid(c, Some(Step(c, b, call).0))
  {
    MulMonotone(0, call.cost, c.Grain());
    if b.Some? {
      MulMonotone(0, Max(0, call.now - b.value.ts), c.limit);
    }
  }

  /**
   * Rate bound. Over any stretch of calls from any stored state, what is granted
   * and what is left never exceed what was there and what the clock earned, so
   * grants are at most one bucket plus the rate times forward clock movement.
   */
  lemma {:induction false} RateBound(c: Config, b: Option<Bucket>, calls: seq<Call>)
    requires Valid(c, b)
    ensures Valid(c, Run(c, b, calls))
    ensures Spent(calls, Replies(c, b, calls)) * c.Grain() + Stored(Run(c, b, calls), c.Cap())
         <= Stored(b, c.Cap()) + Forward(LastWrite(b), calls) * c.limit
    ensures Spent(calls, Replies(c, b, calls)) * c.Grain() <= c.Cap() + Forward(LastWrite(b), calls) * c.limit
    decreases |calls|
  {
    if calls != [] {
      var (next, r) := Step(c, b, calls[0]);
      StepValid(c, b, calls[0]);
      RateBound(c, Some(next), calls[1..]);
      assert Replies(c, b, calls)[1..] == Replies(c, Some(next), calls[1..]);
      var first := if r.allowed then calls[0].cost else 0;
      var rest := Spent(calls[1..], Replies(c, Some(next), calls[1..]));
      Distribute(first, rest, c.Grain());
      var moved := if b.None? then 0 else Max(0, calls[0].now - b.value.ts);
      Distribute(moved, Forward(Some(calls[0].now), calls[1..]), c.limit);
    }
  }

  lemma Distribute(a: int, b: int, k: int)
    ensures (a + b) * k == a * k + b * k
  {
  }

  /** In time order, forward movement is simply the time that passed. */
  lemma {:induction false} ForwardIsElapsed(from: int, calls: seq<Call>)
    requires Ordered(from, calls)
    ensures Forward(Some(from), calls) == LastTime(from, calls) - from
    decreases |calls|
  {
    if calls != [] {
      ForwardIsElapsed(calls[0].now, calls[1..]);
    }
  }

  ghost predicate AllRejected(rs: seq<Reply>) {
    forall i :: 0 <= i < |rs| ==> !rs[i].allowed
  }

  /**
   * Polling changes nothing: however many rejected calls are made, the balance
   * readable at any later time is the one that would have been read without them.
   */
  lemma {:induction false} PollingInvariance(c: Config, b: Bucket, calls: seq<Call>, at: int)
    requires Valid(c, Some(b))
    requires Ordered(b.ts, calls) && LastTime(b.ts, calls) <= at
    requires AllRejected(Replies(c, Some(b), calls))
    ensures Run(c, Some(b), calls).Some? && Run(c, Some(b), calls).value.ts == LastTime(b.ts, calls)
    ensures Refill(Run(c, Some(b), calls), at, c.limit, c.Cap()) == Refill(Some(b), at, c.limit, c.Cap())
    decreases |calls|
  {
    if calls != [] {
      var (next, r) := Step(c, Some(b), calls[0]);
      assert Replies(c, Some(b), calls)[0] == r;
      assert forall i :: 0 <= i < |calls| - 1 ==>
        Replies(c, Some(next), calls[1..])[i] == Replies(c, Some(b), calls)[i + 1];
      StepValid(c, Some(b), calls[0]);
      PollingInvariance(c, next, calls[1..], at);
      LastTimeMonotone(calls[0].now, calls[1..]);
      RefillTwice(b, calls[0].now, at, c.limit, c.Cap());
    }
  }

  lemma {:induction false} LastTimeMonotone(from: int, calls: seq<Call>)
    requires Ordered(from, calls)
    ensures from <= LastTime(from, calls)
    decreases |calls|
  {
    if calls != [] {
      LastTimeMonotone(calls[0].now, calls[1..]);
    }
  }

  /** When a balance left at `now` covers a request. */
  lemma CoveredAt(c: Config, b: Bucket, now: int, cost: nat, at: int)
    requires b.ts == now <= at && 0 <= b.bal < cost * c.Grain() && cost <= c.limit
    ensures cost * c.Grain() <= Refill(Some(b), at, c.limit, c.Cap())
       <==> now + CeilDiv(cost * c.Grain() - b.bal, c.limit) <= at
  {
    MulMonotone(cost, c.limit, c.Grain());
    LeastDelay(cost * c.Grain() - b.bal, c.limit, at - now);
  }

  lemma RejectedShape(c: Config, b: Option<Bucket>, call: Call)
    requires !Step(c, b, call).1.allowed
    ensures var (next, r) := Step(c, b, call);
      next.ts == call.now && next.bal < call.cost * c.Grain()
      && r.retryAfterMs == CeilDiv(call.cost * c.Grain() - next.bal, c.limit) && 0 < r.retryAfterMs
  {
  }

  /**
   * The advertised delay is exact. After a rejection of a request the bucket can
   * hold, and after any number of further rejected calls, the same request is
   * granted from `now + retryAfterMs` on and at no earlier time.
   */
  lemma RetryAfterIsLeast(c: Config, b: Option<Bucket>, call: Call, polls: seq<Call>, at: int)
    requires Valid(c, b) && call.cost <= c.limit
    requires !Step(c, b, call).1.allowed
    requires Ordered(call.now, polls) && LastTime(call.now, polls) <= at
    requires AllRejected(Replies(c, Some(Step(c, b, call).0), polls))
    ensures 0 < Step(c, b, call).1.retryAfterMs
    ensures Step(c, Run(c, Some(Step(c, b, call).0), polls), Call(at, call.cost)).1.allowed
       <==> call.now + Step(c, b, call).1.retryAfterMs <= at
  {
    var (next, r) := Step(c, b, call);
    StepValid(c, b, call);
    PollingInvariance(c, next, polls, at);
    LastTimeMonotone(call.now, polls);
    RejectedShape(c, b, call);
    CoveredAt(c, next, call.now, call.cost, at);
    hide Refill, Config.Cap, Config.Grain, Run, CeilDiv;
  }

  /** `resetAtMs` is the first instant at which an untouched bucket is full again. */
  lemma ResetAtIsLeast(c: Config, b: Option<Bucket>, call: Call, at: int)
    requires Valid(c, b) && call.now <= at
    ensures Refill(Some(Step(c, b, call).0), at, c.limit, c.Cap()) == c.Cap()
       <==> Step(c, b, call).1.resetAt <= at
  {
    var (next, r) := Step(c, b, call);
    StepValid(c, b, call);
    LeastDelay(c.Cap() - next.bal, c.limit, at - call.now);
  }

  /** `remaining` is what can still be spent at once: the largest cost the next call may have. */
  lemma RemainingIsSpendable(c: Config, b: Option<Bucket>, call: Call, cost: nat)
    requires Valid(c, b)
    ensures Step(c, Some(Step(c, b, call).0), Call(call.now, cost)).1.allowed
       <==> cost <= Step(c, b, call).1.remaining
  {
    var (next, r) := Step(c, b, call);
    StepValid(c, b, call);
    assert Refill(Some(next), call.now, c.limit, c.Cap()) == next.bal;
    FloorIsLargest(next.bal, c.Grain(), cost);
  }

  /**
   * With nothing stored, a call is granted exactly up to the limit and leaves
   * the rest, and the bucket is full again as soon as the window has earned
   * what it took.
   */
  lemma FreshCall(c: Config, now: int, cost: nat)
    ensures var r := Step(c, None, Call(now, cost)).1;
      && (r.allowed <==> cost <= c.limit)
      && r.remaining == (if r.allowed then c.limit - cost else c.limit)
      && (r.allowed ==> r.retryAfterMs == 0 && cost * (1000 * c.windowSeconds) <= (r.resetAt - now) * c.limit)
      && (r.allowed && now < r.resetAt ==> (r.resetAt - now - 1) * c.limit < cost * (1000 * c.windowSeconds))
  {
    FloorIsLargest(c.Cap(), c.Grain(), cost);
    var left := if cost <= c.limit then c.limit - cost else c.limit;
    WholeQuotient(left, c.Grain());
    WholeQuotient(c.limit, c.Grain());
    assert c.Cap() - cost * c.Grain() == (c.limit - cost) * c.Grain();
  }

  lemma WholeQuotient(k: int, b: pos)
    ensures FloorDiv(k * b, b) == k
  {
    FloorIsLargest(k * b, b, k);
    FloorIsLargest(k * b, b, k + 1);
    assert (k + 1) * b > k * b;
  }

  // ----- Key lifetime -----

  /** Both keys with the instant Redis drops them. */
  datatype Key = Key(bucket: Option<Bucket>, until: int)

  function Live(k: Key, clock: int): Option<Bucket> {
    if k.until <= clock then None else k.bucket
  }

  function RepliesExpiring(c: Config, k: Key, calls: seq<Call>): (rs: seq<Reply>)
    ensures |rs| == |calls|
    decreases |calls|
  {
    if calls == [] then []
    else
      var (next, r) := Step(c, Live(k, calls[0].now), calls[0]);
      [r] + RepliesExpiring(c, Key(Some(next), calls[0].now + c.TtlMs()), calls[1..])
  }

  lemma TtlIsWindowPlusOne(c: Config)
    ensures c.TtlMs() == 1000 * (c.windowSeconds + 1)
  {
    var q := CeilDiv(c.limit * c.windowSeconds, c.limit);
    if q < c.windowSeconds {
      MulMonotone(q, c.windowSeconds - 1, c.limit);
      assert false;
    } else if q > c.windowSeconds {
      MulMonotone(c.windowSeconds, q - 1, c.limit);
      assert false;
    }
  }

  /** By the time the keys are dropped the bucket would have refilled anyway. */
  lemma ExpiredMeansFull(c: Config, b: Bucket, clock: int)
    requires Valid(c, Some(b))
    requires b.ts + c.TtlMs() <= clock
    ensures Refill(Some(b), clock, c.limit, c.Cap()) == c.Cap()
  {
    TtlIsWindowPlusOne(c);
    MulMonotone(c.Grain(), clock - b.ts, c.limit);
  }

  /**
   * The lifetime `check` chooses is invisible: keys that expire by the time of
   * the call give the same replies as keys that never do, however that time jumps.
   */
  lemma {:induction false} ExpiryIsInvisible(c: Config, b: Bucket, calls: seq<Call>)
    requires Valid(c, Some(b))
    ensures RepliesExpiring(c, Key(Some(b), b.ts + c.TtlMs()), calls) == Replies(c, Some(b), calls)
    decreases |calls|
  {
    if calls != [] {
      var k := Key(Some(b), b.ts + c.TtlMs());
      if k.until <= calls[0].now {
        ExpiredMeansFull(c, b, calls[0].now);
      }
      var (next, r) := Step(c, Some(b), calls[0]);
      assert Step(c, Live(k, calls[0].now), calls[0]) == (next, r);
      StepValid(c, Some(b), calls[0]);
      ExpiryIsInvisible(c, next, calls[1..]);
    }
  }

  lemma FreshExpiryIsInvisible(c: Config, until: int, calls: seq<Call>)
    ensures RepliesExpiring(c, Key(None, until), calls) == Replies(c, None, calls)
  {
    if calls != [] {
      var (next, r) := Step(c, None, calls[0]);
      StepValid(c, None, calls[0]);
      ExpiryIsInvisible(c, next, calls[1..]);
    }
  }

  /** The rate bound with expiry in play: from a missing key, grants are one bucket plus rate times forward movement. */
  lemma ExpiringRateBound(c: Config, until: int, calls: seq<Call>)
    ensures Spent(calls, RepliesExpiring(c, Key(None, until), calls)) * c.Grain()
         <= c.Cap() + Forward(None, calls) * c.limit
  {
    FreshExpiryIsInvisible(c, until, calls);
    RateBound(c, None, calls);
  }

  // ----- The stored keys -----

  /** Both keys are needed to read a balance. */
  function Paired(bal: Option<int>, ts: Option<int>): Option<Bucket> {
    if bal.Some? && ts.Some? then Some(Bucket(bal.value, ts.value)) else None
  }

  /** The two Redis keys of one bucket. */
  class Store {
    var tokens: Option<int>
    var timestamp: Option<int>
    var until: int

    ghost function Contents(): Key
      reads this
    {
      Key(Paired(tokens, timestamp), until)
    }

    constructor ()
      ensures Contents().bucket == None
    {
      tokens, timestamp, until := None, None, 0;
    }

    /** One run of the script at `now`, on keys that may have expired by then. */
    method Check(c: Config, now: int, cost: nat) returns (r: Reply)
      modifies this
      ensures (Contents().bucket, r) == (Some(Step(c, old(Live(Contents(), now)), Call(now, cost)).0),
                                         Step(c, old(Live(Contents(), now)), Call(now, cost)).1)
      ensures Contents().until == now + c.TtlMs()
    {
      if until <= now {
        tokens, timestamp := None, None;
      }
      var current, last := c.Cap(), now;
      if tokens.Some? && timestamp.Some? {
        current, last := tokens.value, timestamp.value;
      }
      var elapsed := Max(0, now - last);
      current := Min(current + elapsed * c.limit, c.Cap());
      var allowed, retry := false, 0;
      if current >= cost * c.Grain() {
        allowed := true;
        current := current - cost * c.Grain();
      } else {
        retry := CeilDiv(cost * c.Grain() - current, c.limit);
      }
      tokens, timestamp, until := Some(current), Some(now), now + c.TtlMs();
      var resetAt := now + CeilDiv(c.Cap() - current, c.limit);
      r := Reply(allowed, FloorDiv(current, c.Grain()), resetAt, retry);
    }

    method Reset()
      modifies this
      ensures tokens.None? && timestamp.None?
    {
      tokens, timestamp := None, None;
    }
  }
}
