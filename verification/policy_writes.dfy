/** Policy writes next to the resolver's loads: when does a write take effect? */
module PolicyWrites {
  import opened Basics
  import opened Text
  import opened PolicyResolver

  /** The policy table, one resolver, and what the load in flight has read from the table, if it has got that far. */
  datatype World<T> = World(table: seq<Stored<T>>, resolver: State<T>, read: Option<seq<Stored<T>>>)

  /** A load is started by a call that finds the set stale; it reads the table, and later it returns or fails. */
  datatype Move<T> =
    | Ask(now: int)
    | Read
    | Return(now: int)
    | Fail(now: int)
    | Look(tenant: Str, model: Str)
    | Save(policies: seq<Stored<T>>)
    | Drop

  /** A move that is not possible changes nothing. */
  function Next<T>(rules: Rules<T>, w: World<T>, m: Move<T>): World<T> {
    match m
    case Ask(now) => w.(resolver := Step(rules, w.resolver, Ensure(now)).0)
    case Read => if w.resolver.loading && w.read.None? then w.(read := Some(w.table)) else w
    case Return(now) =>
      if w.resolver.loading && w.read.Some? then
        w.(resolver := Step(rules, w.resolver, Loaded(w.read.value, now)).0, read := None)
      else w
    case Fail(now) =>
      if w.resolver.loading then w.(resolver := Step(rules, w.resolver, LoadFailed(now)).0, read := None) else w
    case Look(tenant, model) => w.(resolver := Step(rules, w.resolver, Lookup(tenant, model)).0)
    case Save(policies) => w.(table := policies)
    case Drop => w.(resolver := Step(rules, w.resolver, Invalidate).0)
  }

  function After<T>(rules: Rules<T>, w: World<T>, moves: seq<Move<T>>): World<T>
    decreases |moves|
  {
    if moves == [] then w else After(rules, Next(rules, w, moves[0]), moves[1..])
  }

  function Beginning<T>(table: seq<Stored<T>>): World<T> {
    World(table, Initial(), None)
  }

  /** No further write, and no load that fails. */
  ghost predicate Undisturbed<T>(moves: seq<Move<T>>) {
    forall m :: m in moves ==> !m.Save? && !m.Fail?
  }

  /** A set that counts as loaded is the table, and so is whatever the load in flight has read. */
  ghost predicate UpToDate<T>(w: World<T>) {
    && (0 < w.resolver.loadedAt ==> w.resolver.policies == w.table)
    && (w.read.Some? ==> w.read.value == w.table)
  }

  lemma {:induction false} StaysUpToDate<T>(rules: Rules<T>, w: World<T>, moves: seq<Move<T>>)
    requires UpToDate(w) && Undisturbed(moves)
    ensures UpToDate(After(rules, w, moves)) && After(rules, w, moves).table == w.table
    decreases |moves|
  {
    hide Answer;
    if moves != [] {
      assert moves[0] in moves && forall m :: m in moves[1..] ==> m in moves;
      StaysUpToDate(rules, Next(rules, w, moves[0]), moves[1..]);
    }
  }

  /** A call at `now` finds the set fresh and goes on without waiting, on policies other than the table's. */
  ghost predicate Outdated<T>(rules: Rules<T>, w: World<T>, now: int) {
    Step(rules, w.resolver, Ensure(now)).1 == Gated(Fresh) && w.resolver.policies != w.table
  }

  /** What has been read belongs to a load in flight. */
  lemma {:induction false} ReadWhileLoading<T>(rules: Rules<T>, w: World<T>, moves: seq<Move<T>>)
    requires w.read.Some? ==> w.resolver.loading
    ensures After(rules, w, moves).read.Some? ==> After(rules, w, moves).resolver.loading
    decreases |moves|
  {
    hide Answer;
    if moves != [] {
      ReadWhileLoading(rules, Next(rules, w, moves[0]), moves[1..]);
    }
  }

  /**
   * When a write takes effect, exactly. Once a write has dropped the cache, no
   * later call goes on with other policies than the table's, in any
   * interleaving without a further write or a failed load, if and only if no
   * load was in flight that had read the table as it was before. If one was,
   * the drop is lost, and the old policies are used for another whole lifetime.
   */
  lemma WriteTakesEffectExactly<T>(rules: Rules<T>, table: seq<Stored<T>>, before: seq<Move<T>>)
    ensures var w := After(rules, Beginning(table), before);
      ((forall moves: seq<Move<T>>, now: int :: Undisturbed(moves) && 30000 <= now ==>
          !Outdated(rules, After(rules, Next(rules, w, Drop), moves), now))
       <==> (w.read == None || w.read == Some(w.table)))
  {
    hide Answer;
    var w := After(rules, Beginning(table), before);
    ReadWhileLoading(rules, Beginning(table), before);
    var dropped := Next(rules, w, Drop);
    if w.read == None || w.read == Some(w.table) {
      forall moves: seq<Move<T>>, now: int | Undisturbed(moves) && 30000 <= now
        ensures !Outdated(rules, After(rules, dropped, moves), now)
      {
        StaysUpToDate(rules, dropped, moves);
      }
    } else {
      LostDrop(rules, w, 30000, 30000);
      assert Outdated(rules, After(rules, dropped, [Return(30000)]), 30000);
    }
  }

  /** How long a lost drop lasts: the old policies are used for 30 seconds from the moment the load returns. */
  lemma LostDrop<T>(rules: Rules<T>, w: World<T>, returned: int, now: int)
    requires w.resolver.loading && w.read.Some? && w.read.value != w.table && returned <= now
    ensures var later := After(rules, Next(rules, w, Drop), [Return(returned)]);
      && later.resolver.policies == w.read.value
      && (Outdated(rules, later, now) <==> now < returned + 30000)
    ensures Undisturbed([Move<T>.Return(returned)])
  {
    hide Answer;
    var moves := [Move<T>.Return(returned)];
    assert moves[1..] == [];
    assert After(rules, Next(rules, Next(rules, w, Drop), moves[0]), []) == Next(rules, Next(rules, w, Drop), moves[0]);
  }

  /** Such a load is in flight in some run from every start: it reads the table just before the write. */
  lemma DropCanBeLost<T>(rules: Rules<T>, before: seq<Stored<T>>, policies: seq<Stored<T>>, now: int)
    requires before != policies && 30000 <= now
    ensures var w := After(rules, Beginning(before), [Ask(now), Read, Save(policies)]);
      w.resolver.loading && w.read == Some(before) && w.table == policies
  {
    hide Answer;
    var moves := [Move<T>.Ask(now), Read, Save(policies)];
    var w1 := Next(rules, Beginning(before), moves[0]);
    var w2 := Next(rules, w1, moves[1]);
    var w3 := Next(rules, w2, moves[2]);
    assert moves[1..] == [moves[1], moves[2]] && moves[1..][1..] == [moves[2]] && moves[1..][1..][1..] == [];
    assert After(rules, w2, [moves[2]]) == After(rules, w3, []);
    assert After(rules, w1, [moves[1], moves[2]]) == After(rules, w2, [moves[2]]);
  }

  /** What a resolver did in a run, as its own events. */
  lemma {:induction false} MovesAreEvents<T>(rules: Rules<T>, w: World<T>, moves: seq<Move<T>>) returns (es: seq<Event<T>>)
    ensures After(rules, w, moves).resolver == Run(rules, w.resolver, es)
    decreases |moves|
  {
    hide Answer;
    if moves == [] {
      es := [];
    } else {
      var m, next := moves[0], Next(rules, w, moves[0]);
      var rest := MovesAreEvents(rules, next, moves[1..]);
      var first: seq<Event<T>> := match m
        case Ask(now) => [Ensure(now)]
        case Return(now) => if w.resolver.loading && w.read.Some? then [Loaded(w.read.value, now)] else []
        case Fail(now) => if w.resolver.loading then [LoadFailed(now)] else []
        case Look(tenant, model) => [Lookup(tenant, model)]
        case Drop => [Invalidate]
        case _ => [];
      es := first + rest;
      if first == [] {
        assert es == rest && next.resolver == w.resolver;
      } else {
        assert es[0] == first[0] && es[1..] == rest;
        assert next.resolver == Step(rules, w.resolver, first[0]).0;
      }
    }
  }

  /**
   * And then every answer is the table's: after any run and a write that took
   * effect, a call that goes on gets for a pair of names without NUL the first
   * match of the table as written.
   */
  lemma AnswersAfterWrite<T>(
    rules: Rules<T>, table: seq<Stored<T>>, before: seq<Move<T>>, moves: seq<Move<T>>, now: int, tenant: Str, model: Str)
    requires var w := After(rules, Beginning(table), before); w.read == None || w.read == Some(w.table)
    requires Undisturbed(moves) && 30000 <= now && Clean(tenant) && Clean(model)
    ensures var w := After(rules, Beginning(table), before);
            var later := After(rules, Next(rules, w, Drop), moves);
            var outcome := Step(rules, later.resolver, Lookup(tenant, model)).1;
      Step(rules, later.resolver, Ensure(now)).1 == Gated(Fresh) ==>
        outcome.Found? && Answers(rules, w.table, tenant, model, outcome.policy)
  {
    hide Answer, Answers, LoadedSet, Next;
    var w := After(rules, Beginning(table), before);
    DropIsUpToDate(rules, w);
    StaysUpToDate(rules, Next(rules, w, Drop), moves);
    AfterConcat(rules, Beginning(table), before, [Drop] + moves);
    assert ([Move<T>.Drop] + moves)[1..] == moves;
    var es := MovesAreEvents(rules, Beginning(table), before + ([Drop] + moves));
    RunPolicies(rules, Initial(), es);
    EveryAnswerIsCurrent(rules, es, tenant, model);
  }

  lemma DropIsUpToDate<T>(rules: Rules<T>, w: World<T>)
    requires w.read == None || w.read == Some(w.table)
    ensures UpToDate(Next(rules, w, Drop)) && Next(rules, w, Drop).table == w.table
  {
  }

  lemma {:induction false} AfterConcat<T>(rules: Rules<T>, w: World<T>, a: seq<Move<T>>, b: seq<Move<T>>)
    ensures After(rules, w, a + b) == After(rules, After(rules, w, a), b)
    decreases |a|
  {
    hide Next;
    if a == [] {
      assert a + b == b;
    } else {
      assert (a + b)[0] == a[0] && (a + b)[1..] == a[1..] + b;
      AfterConcat(rules, Next(rules, w, a[0]), a[1..], b);
    }
  }
}
