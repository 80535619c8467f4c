/**
 * The Redis structures behind the lease table: a sorted set of reservation ids
 * scored by expiry, and a hash of the tokens each id holds.
 */
module LeaseIndex {
  import opened Basics
  import opened SortedSet

  type Id = Member

  function DueSet(leases: map<Id, int>, now: int): set<Id> {
    set k | k in leases && leases[k] <= now
  }

  function Elems(ids: seq<Id>): set<Id> {
    set k | k in ids
  }

  ghost predicate Distinct(ids: seq<Id>) {
    forall i, j :: 0 <= i < j < |ids| ==> ids[i] != ids[j]
  }

  /** ZRANGEBYSCORE leases -inf now LIMIT 0 n. */
  function Due(leases: map<Id, int>, now: int, n: nat): (ids: seq<Id>)
    ensures |ids| <= n
    ensures Elems(ids) <= DueSet(leases, now)
    ensures Distinct(ids)
    decreases n
  {
    var due := DueSet(leases, now);
    if n == 0 || due == {} then []
    else
      var m := First(leases, due);
      var rest := Due(leases - {m}, now, n - 1);
      assert forall k :: k in Elems(rest) ==> k in DueSet(leases - {m}, now);
      assert m !in rest by { assert m !in Elems(rest); }
      assert forall k :: k in Elems([m] + rest) ==> k == m || k in Elems(rest);
      [m] + rest
  }

  /** How many leases sort before `id`. */
  ghost function Rank(leases: map<Id, int>, id: Id): nat
    requires id in leases
  {
    |set k | k in leases && Before(leases, k, id)|
  }

  /** The batch is exactly the due leases of rank below the batch size. */
  lemma {:induction false} DueByRank(leases: map<Id, int>, now: int, n: nat, id: Id)
    requires id in leases && leases[id] <= now
    ensures id in Due(leases, now, n) <==> Rank(leases, id) < n
    decreases n
  {
    var due := DueSet(leases, now);
    assert id in due;
    if n > 0 {
      var m := First(leases, due);
      var rest := leases - {m};
      var mine := set k | k in leases && Before(leases, k, id);
      if id == m {
        assert forall k :: k in mine ==> k in due;
        assert mine == {};
      } else {
        DueByRank(rest, now, n - 1, id);
        assert m in mine;
        assert mine - {m} == set k | k in rest && Before(rest, k, id);
      }
    }
  }

  lemma {:induction false} DueCount(leases: map<Id, int>, now: int, n: nat)
    ensures |Due(leases, now, n)| == Min(n, |DueSet(leases, now)|)
    decreases n
  {
    var due := DueSet(leases, now);
    if n > 0 && due != {} {
      var m := First(leases, due);
      DueCount(leases - {m}, now, n - 1);
      assert DueSet(leases - {m}, now) == due - {m};
    }
  }

  lemma {:induction false} ElemsCount(ids: seq<Id>)
    requires Distinct(ids)
    ensures |Elems(ids)| == |ids|
  {
    if ids != [] {
      ElemsCount(ids[1..]);
      assert Elems(ids) == {ids[0]} + Elems(ids[1..]);
    }
  }

  /** A sweep leaves exactly the leases it did not list. */
  lemma SweepCount(leases: map<Id, int>, now: int, n: nat)
    ensures |leases - Elems(Due(leases, now, n))| == |leases| - Min(n, |DueSet(leases, now)|)
  {
    var ids := Due(leases, now, n);
    DueCount(leases, now, n);
    ElemsCount(ids);
    assert (leases - Elems(ids)).Keys == leases.Keys - Elems(ids);
    assert Elems(ids) <= leases.Keys;
    assert |leases.Keys - Elems(ids)| == |leases.Keys| - |Elems(ids)|;
  }

  /** Tokens held across the whole table. */
  ghost function Total(holds: map<Id, nat>): nat
    decreases |holds|
  {
    if holds == map[] then 0
    else
      var k :| k in holds;
      assert |holds - {k}| < |holds| by { assert (holds - {k}).Keys == holds.Keys - {k}; }
      holds[k] + Total(holds - {k})
  }

  lemma {:induction false} TotalSplit(holds: map<Id, nat>, id: Id)
    requires id in holds
    ensures Total(holds) == holds[id] + Total(holds - {id})
    decreases |holds|
  {
    var k :| k in holds && Total(holds) == holds[k] + Total(holds - {k});
    if k != id {
      assert |holds - {k}| < |holds| by { assert (holds - {k}).Keys == holds.Keys - {k}; }
      TotalSplit(holds - {k}, id);
      assert |holds - {id}| < |holds| by { assert (holds - {id}).Keys == holds.Keys - {id}; }
      TotalSplit(holds - {id}, k);
      assert holds - {k} - {id} == holds - {id} - {k};
    }
  }

  lemma TotalAdd(holds: map<Id, nat>, id: Id, tokens: nat)
    requires id !in holds
    ensures Total(holds[id := tokens]) == Total(holds) + tokens
  {
    TotalSplit(holds[id := tokens], id);
    assert holds[id := tokens] - {id} == holds;
  }

  /** Tokens held by the listed ids; an id without a hold contributes nothing. */
  function HeldBy(holds: map<Id, nat>, ids: seq<Id>): nat {
    if ids == [] then 0
    else (if ids[0] in holds then holds[ids[0]] else 0) + HeldBy(holds, ids[1..])
  }

  lemma {:induction false} HeldByWithout(holds: map<Id, nat>, ids: seq<Id>, id: Id)
    requires id !in ids
    ensures HeldBy(holds - {id}, ids) == HeldBy(holds, ids)
  {
    if ids != [] {
      HeldByWithout(holds, ids[1..], id);
    }
  }

  /** What a sweep takes out of the table is what it counts as reclaimed. */
  lemma {:induction false} TotalSweep(holds: map<Id, nat>, ids: seq<Id>)
    requires Distinct(ids)
    ensures Total(holds) == Total(holds - Elems(ids)) + HeldBy(holds, ids)
    decreases |ids|
  {
    if ids == [] {
      assert holds - Elems(ids) == holds;
    } else {
      var id, rest := ids[0], ids[1..];
      assert id !in rest;
      assert holds - Elems(ids) == (holds - {id}) - Elems(rest);
      TotalSweep(holds - {id}, rest);
      HeldByWithout(holds, rest, id);
      if id in holds {
        TotalSplit(holds, id);
      } else {
        assert holds - {id} == holds;
      }
    }
  }
}
