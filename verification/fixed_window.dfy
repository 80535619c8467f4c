/** The fixed window counter: FIXED_WINDOW_SCRIPT and the key arithmetic of its caller. */
module FixedWindow {
  import opened Basics

  datatype Config = Config(limit: nat, windowSeconds: pos) {
    function WindowMs(): pos {
      1000 * windowSeconds
    }

    /** Suffix of the counter key in use at `now`. */
    function Index(now: nat): nat {
      FloorDiv(now, WindowMs())
    }

    function Start(index: nat): nat {
      MulMonotone(0, index, WindowMs());
      index * WindowMs()
    }
  }

  /** One counter per window index, with the instant Redis drops it. */
  datatype Counter = Counter(count: nat, until: int)

  type Counters = map<nat, Counter>

  datatype Reply = Reply(allowed: bool, count: nat, resetAt: int, retryAfterMs: int)

  function Count(counters: Counters, index: nat): nat {
    if index in counters then counters[index].count else 0
  }

  function Step(c: Config, counters: Counters, now: nat): (Counters, Reply) {
    var index := c.Index(now);
    var resetAt := (FloorDiv(now, c.WindowMs()) + 1) * c.WindowMs();
    var ttl := resetAt - now;
    var count := Count(counters, index);
    if count < c.limit then
      (counters[index := Counter(count + 1, now + ttl)], Reply(true, count + 1, resetAt, 0))
    else
      (if index in counters then counters[index := Counter(count, now + ttl)] else counters,
       Reply(false, count, resetAt, ttl))
  }

  /** Counters still stored at `clock`. */
  function Live(counters: Counters, clock: nat): Counters {
    map i | i in counters && clock < counters[i].until :: counters[i]
  }

  /** A call at `now`, on the counters that have not expired by then. */
  function Serve(c: Config, counters: Counters, now: nat): (Counters, Reply) {
    Step(c, Live(counters, now), now)
  }

  function Run(c: Config, counters: Counters, calls: seq<nat>): Counters
    decreases |calls|
  {
    if calls == [] then counters else Run(c, Serve(c, counters, calls[0]).0, calls[1..])
  }

  function Replies(c: Config, counters: Counters, calls: seq<nat>): (rs: seq<Reply>)
    ensures |rs| == |calls|
    decreases |calls|
  {
    if calls == [] then []
    else
      var (next, r) := Serve(c, counters, calls[0]);
      [r] + Replies(c, next, calls[1..])
  }

  // ----- The order of calls -----

  /** The calls arrive in time order, none of them before `from`. */
  predicate Ordered(from: nat, calls: seq<nat>)
    decreases |calls|
  {
    calls != [] ==> from <= calls[0] && Ordered(calls[0], calls[1..])
  }

  function LastTime(from: nat, calls: seq<nat>): nat
    decreases |calls|
  {
    if calls == [] then from else LastTime(calls[0], calls[1..])
  }

  /** No call returns to a window that an earlier call has left; within a window any order will do. */
  predicate Advancing(c: Config, from: nat, calls: seq<nat>)
    decreases |calls|
  {
    calls != [] ==> from <= c.Index(calls[0]) && Advancing(c, c.Index(calls[0]), calls[1..])
  }

  lemma IndexGrows(c: Config, a: nat, b: nat)
    requires a <= b
    ensures c.Index(a) <= c.Index(b)
  {
    FloorIsLargest(b, c.WindowMs(), c.Index(a));
  }

  lemma {:induction false} OrderedAdvances(c: Config, from: nat, calls: seq<nat>)
    requires Ordered(from, calls)
    ensures Advancing(c, c.Index(from), calls)
    decreases |calls|
  {
    if calls != [] {
      IndexGrows(c, from, calls[0]);
      OrderedAdvances(c, calls[0], calls[1..]);
    }
  }

  // ----- What the counters count -----

  /** The instants of the admitted calls. */
  function Admitted(calls: seq<nat>, rs: seq<Reply>): seq<nat>
    requires |rs| == |calls|
  {
    if calls == [] then []
    else (if rs[0].allowed then [calls[0]] else []) + Admitted(calls[1..], rs[1..])
  }

  /** How many of the instants fall in [from, to). */
  function Between(times: seq<nat>, from: int, to: int): nat {
    if times == [] then 0
    else (if from <= times[0] < to then 1 else 0) + Between(times[1..], from, to)
  }

  lemma {:induction false} BetweenSplits(times: seq<nat>, from: int, mid: int, to: int)
    requires from <= mid <= to
    ensures Between(times, from, to) == Between(times, from, mid) + Between(times, mid, to)
  {
    if times != [] {
      BetweenSplits(times[1..], from, mid, to);
    }
  }

  lemma {:induction false} BetweenGrows(times: seq<nat>, from: int, to: int, from': int, to': int)
    requires from' <= from && to <= to'
    ensures Between(times, from, to) <= Between(times, from', to')
  {
    if times != [] {
      BetweenGrows(times[1..], from, to, from', to');
    }
  }

  lemma IndexOf(c: Config, now: nat, index: nat)
    ensures c.Index(now) == index <==> c.Start(index) <= now < c.Start(index + 1)
    ensures c.Start(index + 1) == c.Start(index) + c.WindowMs()
  {
    var w := c.WindowMs();
    var q := FloorDiv(now, w);
    if q < index {
      MulMonotone(q + 1, index, w);
    } else if index < q {
      MulMonotone(index + 1, q, w);
    }
  }

  /** Every counter goes at the end of its window. */
  ghost predicate Dated(c: Config, counters: Counters) {
    forall i :: i in counters ==> counters[i].until == c.Start(i + 1)
  }

  /** One call, seen from the window `index`. */
  lemma ServeCounts(c: Config, counters: Counters, now: nat, index: nat)
    requires Dated(c, counters) && c.Index(now) <= index && Count(counters, index) <= c.limit
    ensures var (next, r) := Serve(c, counters, now);
      && Dated(c, next)
      && Count(next, index) == Count(counters, index) + (if c.Index(now) == index && r.allowed then 1 else 0)
      && Count(next, index) <= c.limit
      && (c.Index(now) == index ==> (r.allowed <==> Count(counters, index) < c.limit))
  {
    IndexOf(c, now, c.Index(now));
    if index in counters {
      MulMonotone(c.Index(now) + 1, index + 1, c.WindowMs());
      assert now < c.Start(index + 1);
    }
  }

  lemma ServeDated(c: Config, counters: Counters, now: nat)
    requires Dated(c, counters)
    ensures Dated(c, Serve(c, counters, now).0)
  {
    IndexOf(c, now, c.Index(now));
  }

  /** No call comes to the window `index` after a call in a later one; `left` says whether there has been one. */
  predicate NoReturn(c: Config, index: nat, left: bool, calls: seq<nat>)
    decreases |calls|
  {
    calls != [] ==>
      && (c.Index(calls[0]) == index ==> !left)
      && NoReturn(c, index, left || index < c.Index(calls[0]), calls[1..])
  }

  /** No call is past the window `index`. */
  predicate Within(c: Config, index: nat, calls: seq<nat>) {
    calls != [] ==> c.Index(calls[0]) <= index && Within(c, index, calls[1..])
  }

  /**
   * As long as no call comes back to a window after one in a later window, the
   * counter of the window counts exactly its admissions until it ends, and
   * neither it nor they ever exceed the limit.
   */
  lemma {:induction false} CounterCountsWindow(c: Config, counters: Counters, left: bool, calls: seq<nat>, index: nat)
    requires Dated(c, counters) && NoReturn(c, index, left, calls) && Count(counters, index) <= c.limit
    ensures var admitted := Between(Admitted(calls, Replies(c, counters, calls)), c.Start(index), c.Start(index + 1));
      && (left ==> admitted == 0)
      && (!left ==> Count(counters, index) + admitted <= c.limit)
      && (!left && Within(c, index, calls) ==>
            Count(Run(c, counters, calls), index) == Count(counters, index) + admitted)
    decreases |calls|
  {
    hide Serve, Config.Index, Config.Start;
    if calls != [] {
      var now := calls[0];
      var (next, r) := Serve(c, counters, now);
      AdmittedHead(c, counters, calls, index);
      ServeDated(c, counters, now);
      ServeCountsAtMost(c, counters, now, index);
      if c.Index(now) <= index {
        ServeCounts(c, counters, now, index);
      }
      CounterCountsWindow(c, next, left || index < c.Index(now), calls[1..], index);
    }
  }

  /** A call elsewhere never raises a counter. */
  lemma ServeCountsAtMost(c: Config, counters: Counters, now: nat, index: nat)
    ensures c.Index(now) != index ==> Count(Serve(c, counters, now).0, index) <= Count(counters, index)
  {
    hide Config.Index;
  }

  lemma {:induction false} AdvancingNeverReturns(c: Config, from: nat, calls: seq<nat>, index: nat)
    requires Advancing(c, from, calls)
    ensures NoReturn(c, index, index < from, calls)
    decreases |calls|
  {
    if calls != [] {
      AdvancingNeverReturns(c, c.Index(calls[0]), calls[1..], index);
      NoReturnWeakens(c, index, index < c.Index(calls[0]), index < from || index < c.Index(calls[0]), calls[1..]);
    }
  }

  /** What is allowed after leaving a window is allowed before. */
  lemma {:induction false} NoReturnWeakens(c: Config, index: nat, left: bool, less: bool, calls: seq<nat>)
    requires NoReturn(c, index, left, calls) && (less ==> left)
    ensures NoReturn(c, index, less, calls)
    decreases |calls|
  {
    if calls != [] {
      var later := index < c.Index(calls[0]);
      NoReturnWeakens(c, index, left || later, less || later, calls[1..]);
    }
  }

  lemma AdmittedCons(c: Config, counters: Counters, calls: seq<nat>)
    requires calls != []
    ensures var (next, r) := Serve(c, counters, calls[0]);
      Admitted(calls, Replies(c, counters, calls))
      == (if r.allowed then [calls[0]] else []) + Admitted(calls[1..], Replies(c, next, calls[1..]))
  {
    hide Serve;
    var (next, r) := Serve(c, counters, calls[0]);
    assert Replies(c, counters, calls)[1..] == Replies(c, next, calls[1..]);
  }

  /** The first call's share of a window's admissions. */
  lemma AdmittedHead(c: Config, counters: Counters, calls: seq<nat>, index: nat)
    requires calls != []
    ensures var (next, r) := Serve(c, counters, calls[0]);
      Between(Admitted(calls, Replies(c, counters, calls)), c.Start(index), c.Start(index + 1))
      == (if r.allowed && c.Index(calls[0]) == index then 1 else 0)
         + Between(Admitted(calls[1..], Replies(c, next, calls[1..])), c.Start(index), c.Start(index + 1))
  {
    hide Serve, Config.Index, Config.Start, Admitted, Replies;
    var (next, r) := Serve(c, counters, calls[0]);
    AdmittedCons(c, counters, calls);
    IndexOf(c, calls[0], index);
    var rest := Admitted(calls[1..], Replies(c, next, calls[1..]));
    assert ([calls[0]] + rest)[1..] == rest && [] + rest == rest;
  }

  /** Each aligned window that no call comes back to admits at most the limit. */
  lemma AlignedWindowBounded(c: Config, calls: seq<nat>, index: nat)
    requires NoReturn(c, index, false, calls)
    ensures Between(Admitted(calls, Replies(c, map[], calls)), c.Start(index), c.Start(index + 1)) <= c.limit
  {
    CounterCountsWindow(c, map[], false, calls, index);
  }

  /** Any interval one window long admits at most twice the limit, if no call comes back to the windows it lies in. */
  lemma AnyWindowBounded(c: Config, calls: seq<nat>, from: nat)
    requires NoReturn(c, c.Index(from), false, calls) && NoReturn(c, c.Index(from) + 1, false, calls)
    ensures Between(Admitted(calls, Replies(c, map[], calls)), from, from + c.WindowMs()) <= 2 * c.limit
  {
    var times := Admitted(calls, Replies(c, map[], calls));
    var index := c.Index(from);
    IndexOf(c, from, index);
    IndexOf(c, from, index + 1);
    AlignedWindowBounded(c, calls, index);
    AlignedWindowBounded(c, calls, index + 1);
    BetweenGrows(times, from, from + c.WindowMs(), c.Start(index), c.Start(index + 2));
    BetweenSplits(times, c.Start(index), c.Start(index + 1), c.Start(index + 2));
  }

  /** Both bounds for calls in time order, in every window and every interval. */
  lemma OrderedWindowsBounded(c: Config, calls: seq<nat>, index: nat, from: nat)
    requires Ordered(0, calls)
    ensures Between(Admitted(calls, Replies(c, map[], calls)), c.Start(index), c.Start(index + 1)) <= c.limit
    ensures Between(Admitted(calls, Replies(c, map[], calls)), from, from + c.WindowMs()) <= 2 * c.limit
  {
    IndexOf(c, 0, 0);
    OrderedAdvances(c, 0, calls);
    AdvancingNeverReturns(c, 0, calls, index);
    AdvancingNeverReturns(c, 0, calls, c.Index(from));
    AdvancingNeverReturns(c, 0, calls, c.Index(from) + 1);
    AlignedWindowBounded(c, calls, index);
    AnyWindowBounded(c, calls, from);
  }

  // ----- What is left -----

  /** The `remaining` of a reply. */
  function Remaining(c: Config, r: Reply): nat {
    Max(0, c.limit - r.count)
  }

  function Repeat(t: nat, n: nat): seq<nat> {
    seq(n, _ => t)
  }

  /** A call at `now` leaves its own counter readable for the rest of that instant. */
  lemma ServeShape(c: Config, counters: Counters, now: nat)
    ensures var (next, r), live := Serve(c, counters, now), Live(counters, now);
      && (r.allowed <==> Count(live, c.Index(now)) < c.limit)
      && Count(Live(next, now), c.Index(now)) == Count(next, c.Index(now))
      && Count(next, c.Index(now)) == Count(live, c.Index(now)) + (if r.allowed then 1 else 0)
      && r.count == Count(next, c.Index(now))
      && (forall i :: i != c.Index(now) && i in next ==> i in counters && next[i] == counters[i])
      && (c.Index(now) in next ==> next[c.Index(now)].until == c.Start(c.Index(now) + 1))
  {
    IndexOf(c, now, c.Index(now));
  }

  lemma {:induction false} RoomLeft(c: Config, counters: Counters, now: nat, n: nat, i: nat)
    requires i < n
    ensures Replies(c, counters, Repeat(now, n))[i].allowed
       <==> Count(Live(counters, now), c.Index(now)) + i < c.limit
    decreases n
  {
    hide Serve, Live, Config.Index, Config.Start;
    var (next, r) := Serve(c, counters, now);
    assert Repeat(now, n)[1..] == Repeat(now, n - 1);
    ServeShape(c, counters, now);
    if i > 0 {
      assert Replies(c, counters, Repeat(now, n))[i] == Replies(c, next, Repeat(now, n - 1))[i - 1];
      RoomLeft(c, next, now, n - 1, i - 1);
    }
  }

  /** `remaining` is exact: of any further calls at the same instant, precisely that many are admitted, the first ones. */
  lemma RemainingIsExact(c: Config, counters: Counters, now: nat, n: nat, i: nat)
    requires i < n
    ensures Replies(c, Serve(c, counters, now).0, Repeat(now, n))[i].allowed
       <==> i < Remaining(c, Serve(c, counters, now).1)
  {
    hide Serve, Live;
    ServeShape(c, counters, now);
    RoomLeft(c, Serve(c, counters, now).0, now, n, i);
  }

  // ----- The bound is attained -----

  /** The counters after calls at one instant with room for all of them. */
  lemma {:induction false} BurstState(c: Config, counters: Counters, t: nat, n: nat)
    requires Count(Live(counters, t), c.Index(t)) + n <= c.limit
    ensures var after := Run(c, counters, Repeat(t, n));
      && (forall i :: i != c.Index(t) && i in after ==> i in counters && after[i] == counters[i])
      && Count(Live(after, t), c.Index(t)) == Count(Live(counters, t), c.Index(t)) + n
      && (n > 0 ==> c.Index(t) in after && after[c.Index(t)].until == c.Start(c.Index(t) + 1))
    decreases n
  {
    hide Serve, Live, Config.Index, Config.Start;
    if n == 0 {
      assert Repeat(t, 0) == [];
    } else {
      var next := Serve(c, counters, t).0;
      assert Repeat(t, n)[0] == t && Repeat(t, n)[1..] == Repeat(t, n - 1);
      ServeShape(c, counters, t);
      BurstState(c, next, t, n - 1);
      if n == 1 {
        assert Repeat(t, 0) == [] && Run(c, next, []) == next;
      }
    }
  }

  /** And every one of those calls is admitted. */
  lemma {:induction false} BurstAdmitted(c: Config, counters: Counters, t: nat, n: nat, rest: seq<nat>)
    requires Count(Live(counters, t), c.Index(t)) + n <= c.limit
    ensures Admitted(Repeat(t, n) + rest, Replies(c, counters, Repeat(t, n) + rest))
         == Repeat(t, n) + Admitted(rest, Replies(c, Run(c, counters, Repeat(t, n)), rest))
    decreases n
  {
    hide Serve, Live, Config.Index, Config.Start, Admitted, Replies;
    if n == 0 {
      assert Repeat(t, 0) == [] && Repeat(t, 0) + rest == rest;
    } else {
      var calls, next := Repeat(t, n) + rest, Serve(c, counters, t).0;
      assert Repeat(t, n) == [t] + Repeat(t, n - 1) && Repeat(t, n)[1..] == Repeat(t, n - 1);
      assert calls[0] == t && calls[1..] == Repeat(t, n - 1) + rest;
      ServeShape(c, counters, t);
      AdmittedCons(c, counters, calls);
      BurstAdmitted(c, next, t, n - 1, rest);
    }
  }

  lemma {:induction false} BetweenBurst(t: nat, n: nat, from: int, to: int, rest: seq<nat>)
    requires from <= t < to
    ensures Between(Repeat(t, n) + rest, from, to) == n + Between(rest, from, to)
    decreases n
  {
    if n == 0 {
      assert Repeat(t, 0) + rest == rest;
    } else {
      assert (Repeat(t, n) + rest)[1..] == Repeat(t, n - 1) + rest;
      BetweenBurst(t, n - 1, from, to, rest);
    }
  }

  /** `limit` calls just before a boundary and `limit` just after it. */
  function BoundaryBurst(c: Config): seq<nat> {
    Repeat(c.WindowMs() - 1, c.limit) + Repeat(c.WindowMs(), c.limit)
  }

  lemma {:induction false} BurstOrdered(from: nat, t: nat, n: nat, rest: seq<nat>)
    requires from <= t && Ordered(t, rest)
    ensures Ordered(from, Repeat(t, n) + rest)
    decreases n
  {
    if n == 0 {
      assert Repeat(t, 0) + rest == rest;
    } else {
      assert (Repeat(t, n) + rest)[1..] == Repeat(t, n - 1) + rest;
      BurstOrdered(t, t, n - 1, rest);
    }
  }

  /** For every limit the bound of twice the limit is attained, by a run in time order. */
  lemma TwiceTheLimitIsAttained(c: Config)
    ensures Ordered(0, BoundaryBurst(c))
    ensures Between(Admitted(BoundaryBurst(c), Replies(c, map[], BoundaryBurst(c))),
                    c.WindowMs() - 1, c.WindowMs() - 1 + c.WindowMs()) == 2 * c.limit
  {
    hide Config.Index, Config.WindowMs, Config.Start, Between, Admitted, Replies, Run, Ordered, Repeat, Live, Serve;
    var w: nat, n: nat := c.WindowMs(), c.limit;
    var early, late := Repeat(w - 1, n), Repeat(w, n);
    IndexAtBoundary(c);
    AdmittedNone([]);
    assert late + [] == late;
    BurstOrdered(w - 1, w, n, []);
    BurstOrdered(0, w - 1, n, late);
    NothingLive(c, w - 1);
    BurstState(c, map[], w - 1, n);
    BurstAdmitted(c, map[], w - 1, n, late);
    var after := Run(c, map[], early);
    NotLive(after, w, 1);
    BurstAdmitted(c, after, w, n, []);
    NoReplies(c, Run(c, after, late));
    BetweenBurst(w - 1, n, w - 1, w - 1 + w, late);
    BetweenBurst(w, n, w - 1, w - 1 + w, []);
  }

  lemma NotLive(counters: Counters, clock: nat, index: nat)
    requires index !in counters
    ensures Count(Live(counters, clock), index) == 0
  {
  }

  lemma NoReplies(c: Config, counters: Counters)
    ensures Replies(c, counters, []) == []
  {
  }

  lemma AdmittedNone(rs: seq<Reply>)
    requires rs == []
    ensures Admitted([], rs) == []
    ensures forall from, to :: Between([], from, to) == 0
    ensures forall from: nat :: Ordered(from, [])
  {
  }

  lemma IndexAtBoundary(c: Config)
    ensures 1000 <= c.WindowMs()
    ensures c.Index(c.WindowMs() - 1) == 0 && c.Index(c.WindowMs()) == 1
  {
    IndexOf(c, c.WindowMs() - 1, 0);
    IndexOf(c, c.WindowMs(), 1);
  }

  // ----- The bound needs calls that do not return -----

  /** A full window, one call at `b`, and one more call in the full window. */
  lemma AfterDetour(c: Config, counters: Counters, a: nat, b: nat)
    requires 0 < c.limit && counters.Keys == {c.Index(a)}
    requires counters[c.Index(a)] == Counter(c.limit, c.Start(c.Index(a) + 1))
    ensures var (next, first) := Serve(c, counters, b);
      && (c.Index(b) == c.Index(a) ==> !first.allowed)
      && (Serve(c, next, a).1.allowed <==> c.Index(a) < c.Index(b))
  {
    var k := c.Index(a);
    IndexOf(c, a, k);
    IndexOf(c, b, k);
    IndexOf(c, b, c.Index(b));
    if c.Index(b) <= k {
      MulMonotone(c.Index(b) + 1, k + 1, c.WindowMs());
    } else {
      MulMonotone(k + 1, c.Index(b), c.WindowMs());
    }
  }

  /** The whole limit at `a`, then a call at `b`, then a call at `a` again. */
  function Detour(c: Config, a: nat, b: nat): seq<nat> {
    Repeat(a, c.limit) + [b, a]
  }

  /**
   * The order of the windows matters, exactly: when a call comes back to a
   * window after a call elsewhere, the window stays within its limit if and
   * only if that other call was not in a later window, at whose time the
   * counter had already gone.
   */
  lemma ReturnBreaksTheBound(c: Config, a: nat, b: nat)
    requires 0 < c.limit
    ensures Between(Admitted(Detour(c, a, b), Replies(c, map[], Detour(c, a, b))),
                    c.Start(c.Index(a)), c.Start(c.Index(a) + 1)) <= c.limit
       <==> c.Index(b) <= c.Index(a)
  {
    hide Serve, Config.Index, Config.Start, Between, Admitted;
    var k, after := c.Index(a), Run(c, map[], Repeat(a, c.limit));
    NothingLive(c, a);
    BurstState(c, map[], a, c.limit);
    BurstAdmitted(c, map[], a, c.limit, [b, a]);
    assert after.Keys == {k};
    var (next, first) := Serve(c, after, b);
    var second := Serve(c, next, a).1;
    AfterDetour(c, after, a, b);
    IndexOf(c, a, k);
    BetweenBurst(a, c.limit, c.Start(k), c.Start(k + 1), Admitted([b, a], Replies(c, after, [b, a])));
    AdmittedHead(c, after, [b, a], k);
    assert [b, a][1..] == [a] && [a][1..] == [];
    AdmittedHead(c, next, [a], k);
    AdmittedNone([]);
  }

  lemma NothingLive(c: Config, now: nat)
    ensures Count(Live(map[], now), c.Index(now)) == 0
  {
  }

  // ----- Retry-After -----

  ghost predicate AllRejected(rs: seq<Reply>) {
    forall i :: 0 <= i < |rs| ==> !rs[i].allowed
  }

  /** Nothing is stored for a window after `index`. */
  ghost predicate UpTo(c: Config, counters: Counters, index: nat) {
    Dated(c, counters) && forall i :: i in counters ==> i <= index
  }

  /** The window `index` is full, and it is the last one stored. */
  ghost predicate Full(c: Config, counters: Counters, index: nat) {
    UpTo(c, counters, index) && c.limit <= Count(counters, index)
  }

  lemma ServeUpTo(c: Config, counters: Counters, index: nat, now: nat)
    requires UpTo(c, counters, index) && index <= c.Index(now)
    ensures UpTo(c, Serve(c, counters, now).0, c.Index(now))
  {
    IndexOf(c, now, c.Index(now));
  }

  /** After calls in time order nothing is stored for a window yet to come. */
  lemma {:induction false} RunUpTo(c: Config, counters: Counters, from: nat, calls: seq<nat>)
    requires UpTo(c, counters, c.Index(from)) && Ordered(from, calls)
    ensures UpTo(c, Run(c, counters, calls), c.Index(LastTime(from, calls)))
    ensures from <= LastTime(from, calls)
    decreases |calls|
  {
    hide Serve, Config.Index, UpTo;
    if calls != [] {
      IndexGrows(c, from, calls[0]);
      ServeUpTo(c, counters, c.Index(from), calls[0]);
      RunUpTo(c, Serve(c, counters, calls[0]).0, calls[0], calls[1..]);
    }
  }

  /** While a window is full, calls are rejected exactly until it ends. */
  lemma FullUntilTheEnd(c: Config, counters: Counters, index: nat, at: nat)
    requires 0 < c.limit && Full(c, counters, index) && index <= c.Index(at)
    ensures Serve(c, counters, at).1.allowed <==> c.Start(index + 1) <= at
    ensures !Serve(c, counters, at).1.allowed ==> Full(c, Serve(c, counters, at).0, index)
  {
    IndexOf(c, at, index);
    IndexOf(c, at, c.Index(at));
    if index < c.Index(at) {
      MulMonotone(index + 1, c.Index(at), c.WindowMs());
    }
  }

  lemma {:induction false} PollsKeepItFull(c: Config, counters: Counters, index: nat, from: nat, polls: seq<nat>)
    requires 0 < c.limit && Full(c, counters, index) && index <= c.Index(from)
    requires Ordered(from, polls) && AllRejected(Replies(c, counters, polls))
    ensures Full(c, Run(c, counters, polls), index)
    ensures from <= LastTime(from, polls)
    decreases |polls|
  {
    hide Serve, Config.Index, Full;
    if polls != [] {
      var (next, r) := Serve(c, counters, polls[0]);
      assert Replies(c, counters, polls)[0] == r;
      assert forall i :: 0 <= i < |polls| - 1 ==>
        Replies(c, next, polls[1..])[i] == Replies(c, counters, polls)[i + 1];
      IndexGrows(c, from, polls[0]);
      FullUntilTheEnd(c, counters, index, polls[0]);
      PollsKeepItFull(c, next, index, polls[0], polls[1..]);
    }
  }

  lemma RejectedIsFull(c: Config, counters: Counters, now: nat)
    requires 0 < c.limit && UpTo(c, counters, c.Index(now)) && !Serve(c, counters, now).1.allowed
    ensures Full(c, Serve(c, counters, now).0, c.Index(now))
    ensures now + Serve(c, counters, now).1.retryAfterMs == c.Start(c.Index(now) + 1)
    ensures 0 < Serve(c, counters, now).1.retryAfterMs <= c.WindowMs()
  {
    IndexOf(c, now, c.Index(now));
  }

  /**
   * The advertised delay is exact: after any calls in time order, a rejection,
   * and any number of further rejected calls, a call is granted from
   * `now + retryAfterMs` on, the end of the window, and at no earlier time.
   */
  lemma RetryAfterIsLeast(c: Config, before: seq<nat>, now: nat, polls: seq<nat>, at: nat)
    requires 0 < c.limit && Ordered(0, before) && LastTime(0, before) <= now
    requires var counters := Run(c, map[], before);
      && !Serve(c, counters, now).1.allowed
      && Ordered(now, polls) && LastTime(now, polls) <= at
      && AllRejected(Replies(c, Serve(c, counters, now).0, polls))
    ensures var counters := Run(c, map[], before); var (full, r) := Serve(c, counters, now);
      && 0 < r.retryAfterMs <= c.WindowMs()
      && (Serve(c, Run(c, full, polls), at).1.allowed <==> now + r.retryAfterMs <= at)
  {
    hide Serve, Run, Config.Index, Config.Start, Full, Replies;
    var counters := Run(c, map[], before);
    RunUpTo(c, map[], 0, before);
    IndexGrows(c, LastTime(0, before), now);
    assert UpTo(c, counters, c.Index(now));
    RejectedIsFull(c, counters, now);
    var full := Serve(c, counters, now).0;
    PollsKeepItFull(c, full, c.Index(now), now, polls);
    IndexGrows(c, now, at);
    FullUntilTheEnd(c, Run(c, full, polls), c.Index(now), at);
  }

  // ----- The reset time -----

  /** Counters none of which is for a later window, seen at a later instant. */
  lemma OwnCounterOnly(c: Config, counters: Counters, index: nat, at: nat)
    requires UpTo(c, counters, index) && index <= c.Index(at)
    ensures Count(Live(counters, at), c.Index(at)) == if at < c.Start(index + 1) then Count(counters, index) else 0
  {
    IndexOf(c, at, index);
    if index < c.Index(at) {
      MulMonotone(index + 1, c.Index(at), c.WindowMs());
    }
  }

  /** Every reply names the end of the window its call came in: the next multiple of the window length. */
  lemma ResetAtEndsTheWindow(c: Config, counters: Counters, now: nat)
    ensures var r := Serve(c, counters, now).1;
      && (exists k: nat :: r.resetAt == k * (1000 * c.windowSeconds))
      && now < r.resetAt <= now + 1000 * c.windowSeconds
      && r.retryAfterMs == if r.allowed then 0 else r.resetAt - now
  {
    IndexOf(c, now, c.Index(now));
    var k: nat := c.Index(now) + 1;
    assert Serve(c, counters, now).1.resetAt == k * (1000 * c.windowSeconds);
  }

  /**
   * `resetAt` is exact: after calls in time order and one more, admitted or not,
   * it is the first instant at which the whole limit can be spent at once.
   */
  lemma ResetAtIsLeast(c: Config, before: seq<nat>, now: nat, at: nat)
    requires 0 < c.limit && Ordered(0, before) && LastTime(0, before) <= now <= at
    ensures var (next, r) := Serve(c, Run(c, map[], before), now);
      Replies(c, next, Repeat(at, c.limit))[c.limit - 1].allowed <==> r.resetAt <= at
  {
    hide Serve, Run, Live, Config.Index, Config.Start, UpTo, Replies;
    var counters, index := Run(c, map[], before), c.Index(now);
    StartUpTo(c);
    RunUpTo(c, map[], 0, before);
    IndexGrows(c, LastTime(0, before), now);
    ServeShape(c, counters, now);
    IndexGrows(c, now, at);
    var (next, r) := Serve(c, counters, now);
    UpToWeakens(c, counters, c.Index(LastTime(0, before)), index);
    ServeUpTo(c, counters, index, now);
    OwnCounterOnly(c, next, index, at);
    ResetAtShape(c, counters, now);
    RoomLeft(c, next, at, c.limit, c.limit - 1);
  }

  lemma StartUpTo(c: Config)
    ensures UpTo(c, map[], c.Index(0))
  {
  }

  lemma UpToWeakens(c: Config, counters: Counters, index: nat, later: nat)
    requires UpTo(c, counters, index) && index <= later
    ensures UpTo(c, counters, later)
  {
  }

  lemma ResetAtShape(c: Config, counters: Counters, now: nat)
    ensures Serve(c, counters, now).1.resetAt == c.Start(c.Index(now) + 1)
  {
  }

  // ----- Key lifetime -----

  /** The replies when no counter ever expires. */
  function RepliesForever(c: Config, counters: Counters, calls: seq<nat>): seq<Reply>
    decreases |calls|
  {
    if calls == [] then []
    else
      var (next, r) := Step(c, counters, calls[0]);
      [r] + RepliesForever(c, next, calls[1..])
  }

  /** `kept` has lost only counters of windows before `index`. */
  ghost predicate Agrees(c: Config, kept: Counters, full: Counters, index: nat) {
    && Dated(c, full)
    && (forall i :: i in kept ==> i in full && kept[i] == full[i])
    && (forall i :: i in full && index <= i ==> i in kept)
  }

  lemma LiveAgrees(c: Config, kept: Counters, full: Counters, from: nat, now: nat)
    requires Agrees(c, kept, full, from) && from <= c.Index(now)
    ensures Agrees(c, Live(kept, now), full, c.Index(now))
  {
    IndexOf(c, now, c.Index(now));
    forall i | i in full && c.Index(now) <= i ensures i in Live(kept, now) {
      MulMonotone(c.Index(now) + 1, i + 1, c.WindowMs());
    }
  }

  lemma StepAgrees(c: Config, kept: Counters, full: Counters, now: nat)
    requires Agrees(c, kept, full, c.Index(now))
    ensures Step(c, kept, now).1 == Step(c, full, now).1
    ensures Agrees(c, Step(c, kept, now).0, Step(c, full, now).0, c.Index(now))
  {
    IndexOf(c, now, c.Index(now));
  }

  /** Dropping each counter at the end of its window never changes a reply, as long as no call returns to it. */
  lemma {:induction false} ExpiryIsInvisible(c: Config, kept: Counters, full: Counters, from: nat, calls: seq<nat>)
    requires Agrees(c, kept, full, from) && Advancing(c, from, calls)
    ensures Replies(c, kept, calls) == RepliesForever(c, full, calls)
    decreases |calls|
  {
    hide Step, Live, Config.Index, Agrees;
    if calls != [] {
      var now := calls[0];
      LiveAgrees(c, kept, full, from, now);
      StepAgrees(c, Live(kept, now), full, now);
      ExpiryIsInvisible(c, Serve(c, kept, now).0, Step(c, full, now).0, c.Index(now), calls[1..]);
    }
  }

  // ----- The stored counters -----

  class Store {
    var counters: Counters

    constructor ()
      ensures counters == map[]
    {
      counters := map[];
    }

    /** One run of the script at `now`, on keys some of which may have expired by then. */
    method Check(c: Config, now: nat) returns (r: Reply)
      modifies this
      ensures (counters, r) == Serve(c, old(counters), now)
    {
      counters := Live(counters, now);
      var key := c.Index(now);
      var windowMs := c.windowSeconds * 1000;
      var resetAt := (FloorDiv(now, windowMs) + 1) * windowMs;
      var ttl := resetAt - now;
      var count := if key in counters then counters[key].count else 0;
      if count < c.limit {
        count := count + 1;
        counters := counters[key := Counter(count, now + ttl)];
        return Reply(true, count, resetAt, 0);
      }
      if key in counters {
        counters := counters[key := counters[key].(until := now + ttl)];
      }
      r := Reply(false, count, resetAt, ttl);
    }

    /** Drops the current and the previous window, after which the whole limit is available again. */
    method Reset(c: Config, now: nat)
      modifies this
      ensures forall i: nat :: i == c.Index(now) || i + 1 == c.Index(now) ==> i !in counters
      ensures forall i: nat :: i != c.Index(now) && i + 1 != c.Index(now) ==> Count(counters, i) == old(Count(counters, i))
    {
      var index := c.Index(now);
      counters := map i | i in counters && i != index && i + 1 != index :: counters[i];
    }
  }
}
