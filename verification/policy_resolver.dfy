/** The policy resolver: a memo of first matches over a policy set that is reloaded now and then. */
module PolicyResolver {
  import opened Basics
  import opened Text
  import PatternCache

  const TTL_MS: nat := 30000

  /** A stored policy: its two patterns and its terms. */
  datatype Stored<T> = Stored(tenantPattern: Str, modelPattern: Str, terms: T)

  /** A policy resolved for one pair; no scope stands for the built-in default. */
  datatype Resolved<T> = Resolved(terms: T, tenant: Str, model: Str, scope: Option<Str>)

  /** How patterns match, and the built-in default terms. */
  datatype Rules<T> = Rules(matches: (Str, Str) -> bool, defaults: T)

  predicate Governs<T>(rules: Rules<T>, p: Stored<T>, tenant: Str, model: Str) {
    rules.matches(tenant, p.tenantPattern) && rules.matches(model, p.modelPattern)
  }

  function Find<T>(rules: Rules<T>, policies: seq<Stored<T>>, tenant: Str, model: Str): Option<Stored<T>> {
    if policies == [] then None
    else if Governs(rules, policies[0], tenant, model) then Some(policies[0])
    else Find(rules, policies[1..], tenant, model)
  }

  /** The uncached answer. */
  function Answer<T>(rules: Rules<T>, policies: seq<Stored<T>>, tenant: Str, model: Str): Resolved<T> {
    match Find(rules, policies, tenant, model)
    case Some(p) => Resolved(p.terms, tenant, model, Some(p.tenantPattern + [BAR] + p.modelPattern))
    case None => Resolved(rules.defaults, tenant, model, None)
  }

  /** The policies come in priority order: the answer is the first that governs the pair, or nothing does. */
  lemma {:induction false} FindIsFirst<T>(rules: Rules<T>, policies: seq<Stored<T>>, tenant: Str, model: Str)
    ensures Find(rules, policies, tenant, model).None? ==>
      forall i :: 0 <= i < |policies| ==> !Governs(rules, policies[i], tenant, model)
    ensures Find(rules, policies, tenant, model).Some? ==>
      exists i :: 0 <= i < |policies| && policies[i] == Find(rules, policies, tenant, model).value
        && Governs(rules, policies[i], tenant, model)
        && forall j :: 0 <= j < i ==> !Governs(rules, policies[j], tenant, model)
  {
    if policies != [] {
      var rest := policies[1..];
      FindIsFirst(rules, rest, tenant, model);
      if !Governs(rules, policies[0], tenant, model) {
        assert forall k :: 1 <= k < |policies| ==> policies[k] == rest[k - 1];
        if Find(rules, rest, tenant, model).Some? {
          var i :| 0 <= i < |rest| && rest[i] == Find(rules, rest, tenant, model).value
            && Governs(rules, rest[i], tenant, model)
            && forall j :: 0 <= j < i ==> !Governs(rules, rest[j], tenant, model);
          assert policies[i + 1] == rest[i];
          forall j | 0 <= j < i + 1 ensures !Governs(rules, policies[j], tenant, model) {
            if j > 0 {
              assert policies[j] == rest[j - 1];
            }
          }
        }
      }
    }
  }

  /** `r` is the answer of these policies: the first that matches both names with its terms and scope, or the defaults. */
  ghost predicate Answers<T>(rules: Rules<T>, policies: seq<Stored<T>>, tenant: Str, model: Str, r: Resolved<T>) {
    && r.tenant == tenant && r.model == model
    && (if forall i :: 0 <= i < |policies| ==> !MatchesAt(rules, policies, tenant, model, i) then
          r.terms == rules.defaults && r.scope == None
        else
          exists i ::
            && 0 <= i < |policies| && MatchesAt(rules, policies, tenant, model, i)
            && (forall j :: 0 <= j < i ==> !MatchesAt(rules, policies, tenant, model, j))
            && r.terms == policies[i].terms
            && r.scope == Some(policies[i].tenantPattern + ['|' as int] + policies[i].modelPattern))
  }

  ghost predicate MatchesAt<T>(rules: Rules<T>, policies: seq<Stored<T>>, tenant: Str, model: Str, i: nat)
    requires i < |policies|
  {
    rules.matches(tenant, policies[i].tenantPattern) && rules.matches(model, policies[i].modelPattern)
  }

  lemma AnswerAnswers<T>(rules: Rules<T>, policies: seq<Stored<T>>, tenant: Str, model: Str)
    ensures Answers(rules, policies, tenant, model, Answer(rules, policies, tenant, model))
  {
    hide Find;
    FindIsFirst(rules, policies, tenant, model);
    assert forall i :: 0 <= i < |policies| ==>
      MatchesAt(rules, policies, tenant, model, i) == Governs(rules, policies[i], tenant, model);
  }

  // ----- The cache key -----

  function Key(tenant: Str, model: Str): Str {
    tenant + [NUL] + model
  }

  predicate Clean(s: Str) {
    NUL !in s
  }

  /** Between clean names the separator is the only NUL. */
  lemma OnlyNul(tenant: Str, model: Str, i: nat)
    requires Clean(tenant) && Clean(model) && i < |Key(tenant, model)|
    ensures Key(tenant, model)[i] == NUL <==> i == |tenant|
  {
    var key := Key(tenant, model);
    if i < |tenant| {
      assert key[i] == tenant[i];
    } else if i > |tenant| {
      assert key[i] == model[i - |tenant| - 1];
    }
  }

  /** A key made of names without NUL belongs to that pair alone. */
  lemma CleanKeyIsUnique(tenant: Str, model: Str, tenant': Str, model': Str)
    requires Clean(tenant) && Clean(model) && Key(tenant, model) == Key(tenant', model')
    ensures tenant == tenant' && model == model'
  {
    var key, n := Key(tenant, model), |tenant|;
    OnlyNul(tenant, model, |tenant'|);
    assert key[..n] == tenant && Key(tenant', model')[..n] == tenant';
    assert key[n + 1..] == model && Key(tenant', model')[n + 1..] == model';
  }

  /** Exactly the pairs with a NUL in a name share their key with another pair. */
  lemma SharedKeyExactlyWithNul(tenant: Str, model: Str)
    ensures (exists t: Str, m: Str :: (t, m) != (tenant, model) && Key(t, m) == Key(tenant, model))
       <==> !Clean(tenant) || !Clean(model)
  {
    if Clean(tenant) && Clean(model) {
      forall t: Str, m: Str | Key(t, m) == Key(tenant, model) ensures (t, m) == (tenant, model) {
        CleanKeyIsUnique(tenant, model, t, m);
      }
    } else if !Clean(tenant) {
      var i :| 0 <= i < |tenant| && tenant[i] == NUL;
      var t, m := tenant[..i], tenant[i + 1..] + [NUL] + model;
      assert tenant == t + [NUL] + tenant[i + 1..];
      assert Key(t, m) == Key(tenant, model);
      assert |t| < |tenant|;
      assert (t, m) != (tenant, model);
    } else {
      var i :| 0 <= i < |model| && model[i] == NUL;
      var t, m := tenant + [NUL] + model[..i], model[i + 1..];
      assert model == model[..i] + [NUL] + m;
      assert Key(t, m) == Key(tenant, model);
      assert |m| < |model|;
      assert (t, m) != (tenant, model);
    }
  }

  // ----- The resolver as atomic steps -----

  datatype State<T> = State(policies: seq<Stored<T>>, resolved: map<Str, Resolved<T>>, loadedAt: int, loading: bool)

  /** The outcome of ensureLoaded: nothing to do, wait for the load in flight, or start one. */
  datatype Gate = Fresh | Join | Start

  /** Between two awaits the code runs uninterrupted; these are those stretches. */
  datatype Event<T> =
    | Ensure(now: int)
    | Loaded(policies: seq<Stored<T>>, now: int)
    | LoadFailed(now: int)
    | Lookup(tenant: Str, model: Str)
    | Invalidate

  datatype Outcome<T> = Gated(gate: Gate) | Found(policy: Resolved<T>) | Nothing

  function GateOf<T>(s: State<T>, now: int): Gate {
    if now - s.loadedAt < TTL_MS then Fresh else if s.loading then Join else Start
  }

  function Step<T>(rules: Rules<T>, s: State<T>, e: Event<T>): (State<T>, Outcome<T>) {
    match e
    case Ensure(now) => (s.(loading := s.loading || GateOf(s, now) == Start), Gated(GateOf(s, now)))
    case Loaded(policies, now) => (State(policies, map[], now, false), Nothing)
    case LoadFailed(now) => (s.(resolved := map[], loadedAt := now, loading := false), Nothing)
    case Lookup(tenant, model) =>
      var key := Key(tenant, model);
      if key in s.resolved then (s, Found(s.resolved[key]))
      else
        var policy := Answer(rules, s.policies, tenant, model);
        (s.(resolved := s.resolved[key := policy]), Found(policy))
    case Invalidate => (s.(loadedAt := 0, resolved := map[]), Nothing)
  }

  function Run<T>(rules: Rules<T>, s: State<T>, es: seq<Event<T>>): State<T>
    decreases |es|
  {
    if es == [] then s else Run(rules, Step(rules, s, es[0]).0, es[1..])
  }

  /** The policy set after the events, by the events alone: what the last load that succeeded brought. */
  function LoadedSet<T>(before: seq<Stored<T>>, es: seq<Event<T>>): seq<Stored<T>>
    decreases |es|
  {
    if es == [] then before else LoadedSet(if es[0].Loaded? then es[0].policies else before, es[1..])
  }

  lemma {:induction false} RunPolicies<T>(rules: Rules<T>, s: State<T>, es: seq<Event<T>>)
    ensures Run(rules, s, es).policies == LoadedSet(s.policies, es)
    decreases |es|
  {
    hide Answer;
    if es != [] {
      RunPolicies(rules, Step(rules, s, es[0]).0, es[1..]);
    }
  }

  /** Every entry is the current answer for the pair it names, under the key of that pair. */
  ghost predicate Sound<T>(rules: Rules<T>, s: State<T>) {
    forall key :: key in s.resolved ==>
      var r := s.resolved[key];
      key == Key(r.tenant, r.model) && r == Answer(rules, s.policies, r.tenant, r.model)
  }

  function Initial<T>(): State<T> {
    State([], map[], 0, false)
  }

  lemma {:induction false} RunSound<T>(rules: Rules<T>, s: State<T>, es: seq<Event<T>>)
    requires Sound(rules, s)
    ensures Sound(rules, Run(rules, s, es))
    decreases |es|
  {
    if es != [] {
      var next := Step(rules, s, es[0]).0;
      assert Sound(rules, next);
      RunSound(rules, next, es[1..]);
    }
  }

  /** Every remembered entry is the answer of the policies last loaded, for the pair it names. */
  lemma MemoIsCurrent<T>(rules: Rules<T>, es: seq<Event<T>>, key: Str)
    requires key in Run(rules, Initial(), es).resolved
    ensures var r := Run(rules, Initial(), es).resolved[key];
      && key == r.tenant + [0] + r.model
      && Answers(rules, LoadedSet([], es), r.tenant, r.model, r)
  {
    hide Answer, Answers;
    RunSound(rules, Initial(), es);
    RunPolicies(rules, Initial(), es);
    var r := Run(rules, Initial(), es).resolved[key];
    AnswerAnswers(rules, LoadedSet([], es), r.tenant, r.model);
  }

  /** The keys asked about since the memo was last dropped. */
  function AskedKeys<T>(before: set<Str>, es: seq<Event<T>>): set<Str>
    decreases |es|
  {
    if es == [] then before
    else
      match es[0]
      case Lookup(tenant, model) => AskedKeys(before + {tenant + [0] + model}, es[1..])
      case Ensure(_) => AskedKeys(before, es[1..])
      case _ => AskedKeys({}, es[1..])
  }

  /** The memo holds the keys asked about since the last load, failed load or invalidation, and no others. */
  lemma {:induction false} MemoHoldsAsked<T>(rules: Rules<T>, s: State<T>, es: seq<Event<T>>)
    ensures Run(rules, s, es).resolved.Keys == AskedKeys(s.resolved.Keys, es)
    decreases |es|
  {
    hide Answer;
    if es != [] {
      var next := Step(rules, s, es[0]).0;
      MemoHoldsAsked(rules, next, es[1..]);
      match es[0]
      case Lookup(tenant, model) =>
        assert next.resolved.Keys == s.resolved.Keys + {tenant + [0] + model};
      case Ensure(_) => assert next.resolved == s.resolved;
      case _ => assert next.resolved.Keys == {};
    }
  }

  /**
   * In every interleaving of resolves, loads, failed loads and invalidations,
   * a pair of names without NUL is answered by the first match of the policies
   * that the last successful load brought, or by the defaults if none has,
   * whatever other pairs have been asked about.
   */
  lemma EveryAnswerIsCurrent<T>(rules: Rules<T>, es: seq<Event<T>>, tenant: Str, model: Str)
    requires Clean(tenant) && Clean(model)
    ensures var outcome := Step(rules, Run(rules, Initial(), es), Lookup(tenant, model)).1;
      outcome.Found? && Answers(rules, LoadedSet([], es), tenant, model, outcome.policy)
  {
    hide Answers, Answer;
    var s := Run(rules, Initial(), es);
    RunSound(rules, Initial(), es);
    RunPolicies(rules, Initial(), es);
    AnswerAnswers(rules, s.policies, tenant, model);
    var key := Key(tenant, model);
    if key in s.resolved {
      var r := s.resolved[key];
      CleanKeyIsUnique(tenant, model, r.tenant, r.model);
    }
  }

  // ----- Loads -----

  /** A load comes back only after it was started. */
  predicate LoadsAnswered<T>(rules: Rules<T>, s: State<T>, es: seq<Event<T>>)
    decreases |es|
  {
    es != [] ==>
      (es[0].Loaded? || es[0].LoadFailed? ==> s.loading) && LoadsAnswered(rules, Step(rules, s, es[0]).0, es[1..])
  }

  /** Loads started over the run, less loads that came back. */
  function InFlight<T>(rules: Rules<T>, s: State<T>, es: seq<Event<T>>): int
    decreases |es|
  {
    if es == [] then 0
    else
      (if es[0].Ensure? && GateOf(s, es[0].now) == Start then 1
       else if es[0].Loaded? || es[0].LoadFailed? then -1
       else 0)
      + InFlight(rules, Step(rules, s, es[0]).0, es[1..])
  }

  /** A burst of concurrent refreshes is one query: never more than one load is in flight, and `loading` says whether. */
  lemma {:induction false} OneLoadAtATime<T>(rules: Rules<T>, s: State<T>, es: seq<Event<T>>)
    requires LoadsAnswered(rules, s, es)
    ensures (if s.loading then 1 else 0) + InFlight(rules, s, es) == (if Run(rules, s, es).loading then 1 else 0)
    decreases |es|
  {
    hide Answer;
    if es != [] {
      OneLoadAtATime(rules, Step(rules, s, es[0]).0, es[1..]);
    }
  }

  /** When the set counts as loaded, by the events alone: when the last load ended, well or badly, and never once dropped. */
  function LoadTime<T>(before: int, es: seq<Event<T>>): int
    decreases |es|
  {
    if es == [] then before
    else
      match es[0]
      case Loaded(_, now) => LoadTime(now, es[1..])
      case LoadFailed(now) => LoadTime(now, es[1..])
      case Invalidate => LoadTime(0, es[1..])
      case _ => LoadTime(before, es[1..])
  }

  /**
   * Freshness, over any run: the set is used without waiting for exactly 30
   * seconds from the end of its last load, and after an invalidation not at all,
   * except in the first 30 seconds of the clock.
   */
  lemma {:induction false} FreshUntil<T>(rules: Rules<T>, s: State<T>, es: seq<Event<T>>, now: int)
    ensures Step(rules, Run(rules, s, es), Ensure(now)).1 == Gated(Fresh) <==> now - LoadTime(s.loadedAt, es) < 30000
    decreases |es|
  {
    hide Answer;
    if es != [] {
      FreshUntil(rules, Step(rules, s, es[0]).0, es[1..], now);
    }
  }

  lemma {:induction false} InFlightSnoc<T>(rules: Rules<T>, s: State<T>, es: seq<Event<T>>, e: Event<T>)
    ensures InFlight(rules, s, es + [e]) == InFlight(rules, s, es) + InFlight(rules, Run(rules, s, es), [e])
    decreases |es|
  {
    hide Step, GateOf;
    if es == [] {
      assert [] + [e] == [e];
    } else {
      assert (es + [e])[0] == es[0] && (es + [e])[1..] == es[1..] + [e];
      InFlightSnoc(rules, Step(rules, s, es[0]).0, es[1..], e);
    }
  }

  /** A stale set is being loaded as soon as anyone asks: the first caller starts the load and the others wait for it. */
  lemma StaleIsLoaded<T>(rules: Rules<T>, es: seq<Event<T>>, now: int)
    requires LoadsAnswered(rules, Initial(), es) && 30000 <= now - LoadTime(0, es)
    ensures var gate := Step(rules, Run(rules, Initial(), es), Ensure(now)).1;
      && gate == Gated(if InFlight(rules, Initial(), es) == 0 then Start else Join)
      && InFlight(rules, Initial(), es + [Ensure(now)]) == 1
  {
    hide Run;
    FreshUntil(rules, Initial(), es, now);
    OneLoadAtATime(rules, Initial(), es);
    InFlightSnoc(rules, Initial(), es, Ensure(now));
    assert |[Event<T>.Ensure(now)][1..]| == 0;
  }

  // ----- Names with a NUL -----

  /** The longest name the admission routes accept. */
  const MAX_NAME: nat := 128

  /** The longest pattern the policy table holds. */
  const MAX_PATTERN: nat := 255

  predicate Storable(pattern: Str) {
    0 < |pattern| <= MAX_PATTERN && NUL !in pattern
  }

  /** What the service can be asked and can load: names that are not empty, and patterns the policy table can hold. */
  predicate Receivable<T>(e: Event<T>) {
    match e
    case Lookup(tenant, model) => tenant != [] && model != []
    case Loaded(policies, _) =>
      forall i :: 0 <= i < |policies| ==> Storable(policies[i].tenantPattern) && Storable(policies[i].modelPattern)
    case _ => true
  }

  /** A run of the service: what it can receive, and no load that was not started. */
  ghost predicate Served<T>(rules: Rules<T>, es: seq<Event<T>>) {
    (forall i :: 0 <= i < |es| ==> Receivable(es[i])) && LoadsAnswered(rules, Initial(), es)
  }

  /** A NUL that can be taken for the separator: with something in front of it and something behind it. */
  predicate Ambiguous(tenant: Str, model: Str)
    requires tenant != [] && model != []
  {
    NUL in tenant[1..] || NUL in model[..|model| - 1]
  }

  /** `(t, m)` is another pair of names under the same key. */
  predicate Rival(tenant: Str, model: Str, t: Str, m: Str) {
    t != [] && m != [] && t != tenant && Key(t, m) == Key(tenant, model)
  }

  lemma RivalInTenant(tenant: Str, model: Str, i: nat)
    requires 0 < i < |tenant| && tenant[i] == NUL && model != []
    ensures Rival(tenant, model, tenant[..i], tenant[i + 1..] + [NUL] + model)
  {
    assert tenant == tenant[..i] + [NUL] + tenant[i + 1..];
    assert Key(tenant[..i], tenant[i + 1..] + [NUL] + model) == Key(tenant, model);
    assert |tenant[..i]| < |tenant|;
  }

  lemma RivalInModel(tenant: Str, model: Str, i: nat)
    requires i < |model| - 1 && model[i] == NUL && tenant != []
    ensures Rival(tenant, model, tenant + [NUL] + model[..i], model[i + 1..])
  {
    assert model == model[..i] + [NUL] + model[i + 1..];
    assert Key(tenant + [NUL] + model[..i], model[i + 1..]) == Key(tenant, model);
    assert |tenant + [NUL] + model[..i]| > |tenant|;
  }

  /** The tenants of rivals differ in length. */
  lemma RivalLengths(tenant: Str, model: Str, t: Str, m: Str)
    requires Rival(tenant, model, t, m)
    ensures |t| != |tenant|
  {
    assert Key(tenant, model)[..|tenant|] == tenant && Key(t, m)[..|t|] == t;
  }

  /** A rival cuts the key at another NUL. */
  lemma RivalCuts(tenant: Str, model: Str, t: Str, m: Str)
    requires tenant != [] && model != [] && Rival(tenant, model, t, m)
    ensures Ambiguous(tenant, model)
  {
    var key := Key(tenant, model);
    assert key[|t|] == NUL by { assert Key(t, m)[|t|] == NUL; }
    RivalLengths(tenant, model, t, m);
    if |t| < |tenant| {
      assert tenant[|t|] == NUL && tenant[1..][|t| - 1] == NUL;
    } else {
      var j := |t| - |tenant| - 1;
      assert model[j] == NUL && j < |model| - 1;
      assert model[..|model| - 1][j] == NUL;
    }
  }

  /** Exactly the ambiguous pairs share their key with another pair of names. */
  lemma RivalExactlyWhenAmbiguous(tenant: Str, model: Str)
    requires tenant != [] && model != []
    ensures (exists t: Str, m: Str :: Rival(tenant, model, t, m)) <==> Ambiguous(tenant, model)
  {
    if exists t: Str, m: Str :: Rival(tenant, model, t, m) {
      var t: Str, m: Str :| Rival(tenant, model, t, m);
      RivalCuts(tenant, model, t, m);
    }
    if NUL in tenant[1..] {
      var i :| 0 <= i < |tenant[1..]| && tenant[1..][i] == NUL;
      RivalInTenant(tenant, model, i + 1);
    } else if NUL in model[..|model| - 1] {
      var i :| 0 <= i < |model[..|model| - 1]| && model[..|model| - 1][i] == NUL;
      RivalInModel(tenant, model, i);
    }
  }

  /** Every entry names a pair that was asked about, and its names are not empty. */
  ghost predicate NamedEntries<T>(s: State<T>) {
    forall key :: key in s.resolved ==> s.resolved[key].tenant != [] && s.resolved[key].model != []
  }

  lemma {:induction false} RunNamed<T>(rules: Rules<T>, s: State<T>, es: seq<Event<T>>)
    requires NamedEntries(s) && forall i :: 0 <= i < |es| ==> Receivable(es[i])
    ensures NamedEntries(Run(rules, s, es))
    decreases |es|
  {
    if es != [] {
      assert Receivable(es[0]) && forall i :: 0 <= i < |es[1..]| ==> es[1..][i] == es[i + 1];
      RunNamed(rules, Step(rules, s, es[0]).0, es[1..]);
    }
  }

  /** A pair that is not ambiguous is answered by the policies last loaded in every run of the service. */
  lemma UnambiguousIsCurrent<T>(rules: Rules<T>, es: seq<Event<T>>, tenant: Str, model: Str)
    requires tenant != [] && model != [] && !Ambiguous(tenant, model) && Served(rules, es)
    ensures var outcome := Step(rules, Run(rules, Initial(), es), Lookup(tenant, model)).1;
      outcome.Found? && Answers(rules, LoadedSet([], es), tenant, model, outcome.policy)
  {
    hide Answers;
    UnambiguousAnswer(rules, es, tenant, model);
    RunPolicies(rules, Initial(), es);
    AnswerAnswers(rules, LoadedSet([], es), tenant, model);
  }

  lemma UnambiguousAnswer<T>(rules: Rules<T>, es: seq<Event<T>>, tenant: Str, model: Str)
    requires tenant != [] && model != [] && !Ambiguous(tenant, model) && Served(rules, es)
    ensures var s := Run(rules, Initial(), es);
      Step(rules, s, Lookup(tenant, model)).1 == Found(Answer(rules, s.policies, tenant, model))
  {
    var s, key := Run(rules, Initial(), es), Key(tenant, model);
    RunSound(rules, Initial(), es);
    RunNamed(rules, Initial(), es);
    if key in s.resolved {
      var r := s.resolved[key];
      if r.tenant == tenant {
        SameTenantSameModel(tenant, model, r.model);
      } else {
        RivalCuts(tenant, model, r.tenant, r.model);
      }
    }
  }

  lemma SameTenantSameModel(tenant: Str, model: Str, m: Str)
    requires Key(tenant, m) == Key(tenant, model)
    ensures m == model
  {
    assert Key(tenant, m)[|tenant| + 1..] == m && Key(tenant, model)[|tenant| + 1..] == model;
  }

  /** Patterns as the service matches them, in front of a regular-expression engine. */
  function Matching<Re>(build: Str -> Option<Re>, test: (Re, Str) -> bool): (Str, Str) -> bool {
    (name, pattern) => PatternCache.Verdict(build, test, name, Some(pattern))
  }

  /** After the run the pair is given terms other than those the policies last loaded say. */
  ghost predicate WrongTerms<T>(rules: Rules<T>, es: seq<Event<T>>, tenant: Str, model: Str) {
    var (_, outcome) := Step(rules, Run(rules, Initial(), es), Lookup(tenant, model));
    outcome.Found? && outcome.policy.terms != Answer(rules, LoadedSet([], es), tenant, model).terms
  }

  /** One policy for what `q` matches and one for everything else. */
  function Split<T>(q: Str, a: T, b: T): seq<Stored<T>> {
    [Stored(q, [STAR], a), Stored([STAR], [STAR], b)]
  }

  lemma SplitAnswers<T>(rules: Rules<T>, q: Str, a: T, b: T, tenant: Str, model: Str)
    requires rules.matches(tenant, [STAR]) && rules.matches(model, [STAR])
    ensures Answer(rules, Split(q, a, b), tenant, model).terms == if rules.matches(tenant, q) then a else b
  {
    var policies, rest := Split(q, a, b), [Stored([STAR], [STAR], b)];
    assert policies[1..] == rest;
    assert Find(rules, rest, tenant, model) == Some(rest[0]);
  }

  /** Of two pairs that share a key, the one asked about first decides for both, until the memo is dropped. */
  lemma FirstAskerDecides<T>(rules: Rules<T>, s: State<T>, tenant: Str, model: Str, t: Str, m: Str)
    requires Key(t, m) == Key(tenant, model) && Key(t, m) !in s.resolved
    ensures Step(rules, Step(rules, s, Lookup(t, m)).0, Lookup(tenant, model)).1
         == Found(Answer(rules, s.policies, t, m))
  {
  }

  /** A load of a policy set, and one lookup after it. */
  function LoadThenAsk<T>(policies: seq<Stored<T>>, t: Str, m: Str): seq<Event<T>> {
    [Ensure(TTL_MS), Loaded(policies, TTL_MS), Lookup(t, m)]
  }

  lemma LoadThenAskRuns<T>(rules: Rules<T>, policies: seq<Stored<T>>, t: Str, m: Str)
    ensures var loaded := State(policies, map[], TTL_MS, false);
      Run(rules, Initial(), LoadThenAsk(policies, t, m)) == Step(rules, loaded, Lookup(t, m)).0
    ensures LoadsAnswered(rules, Initial(), LoadThenAsk(policies, t, m))
  {
    hide Answer;
    var es := LoadThenAsk(policies, t, m);
    assert es[1..] == [es[1], es[2]] && es[1..][1..] == [es[2]] && es[1..][1..][1..] == [];
    var s1 := Step(rules, Initial(), es[0]).0;
    var s2 := Step(rules, s1, es[1]).0;
    assert s1.loading && s2 == State(policies, map[], TTL_MS, false);
    assert Run(rules, s2, [es[2]]) == Step(rules, s2, es[2]).0;
    assert Run(rules, s1, [es[1], es[2]]) == Run(rules, s2, [es[2]]);
    assert LoadsAnswered(rules, s2, [es[2]]) && LoadsAnswered(rules, s1, [es[1], es[2]]);
  }

  /** Two pairs with one key and different tenants, of which one gets the other's terms. */
  lemma RivalGetsWrongTerms<T, Re(!new)>(
    build: Str -> Option<Re>, test: (Re, Str) -> bool, defaults: T, a: T, b: T,
    tenant: Str, model: Str, t: Str, m: Str)
    requires PatternCache.ReadsFragment(build, test) && a != b
    requires tenant != [] && model != [] && |tenant| <= MAX_PATTERN && Rival(tenant, model, t, m)
    ensures exists es: seq<Event<T>> ::
      Served(Rules(Matching(build, test), defaults), es)
      && WrongTerms(Rules(Matching(build, test), defaults), es, tenant, model)
  {
    hide Run, Step, Answer, PatternCache.Verdict, LoadsAnswered;
    var rules := Rules(Matching(build, test), defaults);
    var shorter := if |t| < |tenant| then t else tenant;
    var q := PatternCache.Shape(shorter);
    RivalLengths(tenant, model, t, m);
    PatternCache.ShapeFacts(shorter);
    PatternCache.ShapeVerdict(build, test, t, shorter);
    PatternCache.ShapeVerdict(build, test, tenant, shorter);
    var policies := Split(q, a, b);
    StarGoverns(build, test, tenant);
    StarGoverns(build, test, model);
    StarGoverns(build, test, t);
    StarGoverns(build, test, m);
    SplitAnswers(rules, q, a, b, tenant, model);
    SplitAnswers(rules, q, a, b, t, m);
    var loaded := State(policies, map[], TTL_MS, false);
    FirstAskerDecides(rules, loaded, tenant, model, t, m);
    LoadThenAskRuns(rules, policies, t, m);
    RunPolicies(rules, Initial(), LoadThenAsk(policies, t, m));
    KeepsPolicies(rules, loaded, t, m);
    assert NUL !in q;
    assert Storable([STAR]) && Storable(q);
    var es := LoadThenAsk(policies, t, m);
    assert Served(rules, es) && WrongTerms(rules, es, tenant, model);
  }

  lemma KeepsPolicies<T>(rules: Rules<T>, s: State<T>, t: Str, m: Str)
    ensures Step(rules, s, Lookup(t, m)).0.policies == s.policies
  {
    hide Answer;
  }

  lemma StarGoverns<Re>(build: Str -> Option<Re>, test: (Re, Str) -> bool, name: Str)
    ensures Matching(build, test)(name, [STAR])
  {
  }

  /**
   * Who can be served another pair's terms, exactly. Among the names the
   * admission routes accept and with two different terms to tell apart, some run
   * of the service, with policies the table can hold and lookups the routes let
   * through, gives a pair the wrong terms if and only if one of its names has a
   * NUL that can be taken for the separator.
   */
  lemma WrongTermsExactlyWhenAmbiguous<T, Re(!new)>(
    build: Str -> Option<Re>, test: (Re, Str) -> bool, defaults: T, a: T, b: T, tenant: Str, model: Str)
    requires PatternCache.ReadsFragment(build, test) && a != b
    requires 0 < |tenant| <= MAX_NAME && 0 < |model| <= MAX_NAME
    ensures (exists es: seq<Event<T>> ::
               Served(Rules(Matching(build, test), defaults), es)
               && WrongTerms(Rules(Matching(build, test), defaults), es, tenant, model))
       <==> Ambiguous(tenant, model)
  {
    var rules := Rules(Matching(build, test), defaults);
    RivalExactlyWhenAmbiguous(tenant, model);
    if Ambiguous(tenant, model) {
      var t: Str, m: Str :| Rival(tenant, model, t, m);
      RivalGetsWrongTerms(build, test, defaults, a, b, tenant, model, t, m);
    } else {
      forall es: seq<Event<T>> | Served(rules, es) ensures !WrongTerms(rules, es, tenant, model) {
        UnambiguousAnswer(rules, es, tenant, model);
        RunPolicies(rules, Initial(), es);
      }
    }
  }

  // ----- The resolver object -----

  class Resolver<T> {
    const rules: Rules<T>
    var policies: seq<Stored<T>>
    var resolved: map<Str, Resolved<T>>
    var loadedAt: int
    var loading: bool

    ghost function Contents(): State<T>
      reads this
    {
      State(policies, resolved, loadedAt, loading)
    }

    constructor (rules: Rules<T>)
      ensures this.rules == rules && Contents() == Initial()
    {
      this.rules := rules;
      policies, resolved, loadedAt, loading := [], map[], 0, false;
    }

    /** ensureLoaded up to its await. */
    method EnsureLoaded(now: int) returns (gate: Gate)
      modifies this
      ensures (Contents(), Gated(gate)) == Step(rules, old(Contents()), Ensure(now))
    {
      if now - loadedAt < TTL_MS {
        return Fresh;
      }
      if loading {
        return Join;
      }
      loading := true;
      gate := Start;
    }

    /** The load came back. */
    method FinishLoad(found: seq<Stored<T>>, now: int)
      modifies this
      ensures Contents() == Step(rules, old(Contents()), Loaded(found, now)).0
    {
      policies := found;
      resolved := map[];
      loadedAt := now;
      loading := false;
    }

    /** The load failed; the old set stays in use, the memo does not. */
    method FailLoad(now: int)
      modifies this
      ensures Contents() == Step(rules, old(Contents()), Event<T>.LoadFailed(now)).0
    {
      resolved := map[];
      loadedAt := now;
      loading := false;
    }

    /** The first policy that governs the pair. */
    method FindPolicy(tenant: Str, model: Str) returns (found: Option<Stored<T>>)
      ensures found == Find(rules, policies, tenant, model)
    {
      var i := 0;
      while i < |policies|
        invariant i <= |policies|
        invariant Find(rules, policies, tenant, model) == Find(rules, policies[i..], tenant, model)
      {
        if Governs(rules, policies[i], tenant, model) {
          return Some(policies[i]);
        }
        i := i + 1;
      }
      found := None;
    }

    /** resolve, once the policies are loaded. */
    method Resolve(tenant: Str, model: Str) returns (policy: Resolved<T>)
      modifies this
      ensures (Contents(), Found(policy)) == Step(rules, old(Contents()), Lookup(tenant, model))
    {
      var key := Key(tenant, model);
      if key in resolved {
        return resolved[key];
      }
      var found := FindPolicy(tenant, model);
      if found.Some? {
        policy := Resolved(found.value.terms, tenant, model,
                           Some(found.value.tenantPattern + [BAR] + found.value.modelPattern));
      } else {
        policy := Resolved(rules.defaults, tenant, model, None);
      }
      resolved := resolved[key := policy];
    }

    method Drop()
      modifies this
      ensures Contents() == Step(rules, old(Contents()), Event<T>.Invalidate).0
    {
      loadedAt := 0;
      resolved := map[];
    }
  }
}
