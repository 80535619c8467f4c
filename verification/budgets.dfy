/**
 * The refill rule every budget in the service shares: a stored balance, the
 * time it was stored, a rate and a capacity.
 *
 * Balances are counted in grains, chosen per budget so that one millisecond
 * accrues exactly `rate` grains and every quantity is a whole number.
 */
module Budgets {
  import opened Basics

  /** What the balance key and its timestamp key hold. */
  datatype Bucket = Bucket(bal: int, ts: int)

  function Stored(b: Option<Bucket>, cap: int): int {
    if b.None? then cap else b.value.bal
  }

  /** Grains earned between the last write and `now`; a clock that went back earns none. */
  function Accrual(b: Option<Bucket>, now: int, rate: nat): nat {
    if b.None? then 0 else Max(0, now - b.value.ts) * rate
  }

  function Refill(b: Option<Bucket>, now: int, rate: nat, cap: int): int {
    if b.None? then cap else Min(b.value.bal + Max(0, now - b.value.ts) * rate, cap)
  }

  /** What is lost when an amount is clamped to the capacity. */
  function Over(amount: int, cap: int): nat {
    Max(0, amount - cap)
  }

  /** Accruing, clamping, adding what came back and clamping again, with what each clamp took. */
  lemma SettleLedger(b: Option<Bucket>, now: int, rate: nat, cap: int, returned: int)
    ensures var read := Stored(b, cap) + Accrual(b, now, rate);
      Min(Refill(b, now, rate, cap) + returned, cap)
      == read + returned - Over(read, cap) - Over(Min(read, cap) + returned, cap)
    ensures Refill(b, now, rate, cap) == Stored(b, cap) + Accrual(b, now, rate) - Over(Stored(b, cap) + Accrual(b, now, rate), cap)
  {
  }

  /** What `ms` milliseconds are worth at `rate`. */
  function Earn(ms: int, rate: int): int {
    ms * rate
  }

  lemma EarnZero(rate: int)
    ensures Earn(0, rate) == 0
  {
  }

  lemma EarnAdds(a: int, b: int, rate: int)
    ensures Earn(a + b, rate) == Earn(a, rate) + Earn(b, rate)
  {
  }

  lemma EarnMonotone(a: int, b: int, rate: nat)
    requires a <= b
    ensures Earn(a, rate) <= Earn(b, rate)
  {
    MulMonotone(a, b, rate);
  }

  lemma AccrueSplit(a: int, b: int, c: int, rate: nat)
    ensures (b - a) * rate + (c - b) * rate == (c - a) * rate
  {
  }

  /**
   * Reading later never reads less, and reading at `mid` and writing back gives
   * the same later reading as not touching the budget at all.
   */
  lemma RefillTwice(b: Bucket, mid: int, now: int, rate: nat, cap: int)
    requires b.ts <= mid <= now
    ensures Refill(Some(Bucket(Refill(Some(b), mid, rate, cap), mid)), now, rate, cap)
         == Refill(Some(b), now, rate, cap)
    ensures Refill(Some(b), mid, rate, cap) <= Refill(Some(b), now, rate, cap)
  {
    AccrueSplit(b.ts, mid, now, rate);
    MulMonotone(0, now - mid, rate);
  }

  /** A read that is at the capacity stays there at every later time. */
  lemma FullStaysFull(b: Bucket, mid: int, now: int, rate: nat, cap: int)
    requires b.ts <= mid <= now
    requires Refill(Some(b), mid, rate, cap) == cap
    ensures Refill(Some(b), now, rate, cap) == cap
  {
    RefillTwice(b, mid, now, rate, cap);
  }

  /** `CeilDiv` of a deficit is the first whole number of milliseconds that covers it. */
  lemma LeastDelay(deficit: nat, rate: pos, d: int)
    ensures deficit <= d * rate <==> CeilDiv(deficit, rate) <= d
  {
    var c := CeilDiv(deficit, rate);
    if c <= d {
      MulMonotone(c, d, rate);
    } else {
      MulMonotone(d, c - 1, rate);
    }
  }
}
