/**
 * The shared cache of compiled patterns, and the matcher in front of it.
 *
 * The regular-expression engine is a parameter: `build` is the RegExp
 * constructor (None where it throws) and `test` its test method.
 */
module PatternCache {
  import opened Basics
  import opened Text
  import Glob
  import QuantifierScan

  const MAX_CACHE: nat := 1000
  const MAX_SUBJECT: nat := 256

  /** `glob` and NUL. */
  const GLOB_PREFIX: Str := ['g' as int, 'l' as int, 'o' as int, 'b' as int, NUL]

  /** `raw` and NUL. */
  const RAW_PREFIX: Str := ['r' as int, 'a' as int, 'w' as int, NUL]

  function GlobKey(pattern: Str): Str {
    GLOB_PREFIX + pattern
  }

  function RawKey(source: Str): Str {
    RAW_PREFIX + source
  }

  /** The two namespaces never meet and neither folds two texts into one key. */
  lemma KeysDistinct(a: Str, b: Str)
    ensures GlobKey(a) != RawKey(b)
    ensures GlobKey(a) == GlobKey(b) ==> a == b
    ensures RawKey(a) == RawKey(b) ==> a == b
  {
    assert GlobKey(a)[0] != RawKey(b)[0];
    assert GlobKey(a)[5..] == a && GlobKey(b)[5..] == b;
    assert RawKey(a)[4..] == a && RawKey(b)[4..] == b;
  }

  /** The explicit regex form: text between slashes. */
  predicate Delimited(pattern: Str) {
    |pattern| > 2 && pattern[0] == SLASH && pattern[|pattern| - 1] == SLASH
  }

  predicate HasWildcard(pattern: Str) {
    STAR in pattern || QUESTION in pattern
  }

  /** What compiling a pattern gives when nothing is cached. */
  function Compiled<Re>(build: Str -> Option<Re>, pattern: Str): Option<Re> {
    if Delimited(pattern) then build(pattern[1..|pattern| - 1])
    else if HasWildcard(pattern) then build(Glob.Source(pattern))
    else None
  }

  /** What compiling a custom regex gives when nothing is cached; a nested quantifier is refused. */
  function CompiledRaw<Re>(build: Str -> Option<Re>, source: Str): Option<Re> {
    if QuantifierScan.HasNestedQuantifier(source) then None else build(source)
  }

  /** The verdict on a value, without any cache. */
  function Verdict<Re>(build: Str -> Option<Re>, test: (Re, Str) -> bool, value: Str, pattern: Option<Str>): bool {
    if pattern.None? || pattern.value == [] || pattern.value == [STAR] then true
    else if value == pattern.value then true
    else
      var regex := Compiled(build, pattern.value);
      regex.Some? && test(regex.value, value)
  }

  function RawVerdict<Re>(build: Str -> Option<Re>, test: (Re, Str) -> bool, value: Str, source: Str): bool {
    var regex := CompiledRaw(build, source);
    regex.Some? && test(regex.value, if |value| > MAX_SUBJECT then value[..MAX_SUBJECT] else value)
  }

  class Matcher<Re> {
    const build: Str -> Option<Re>
    const test: (Re, Str) -> bool
    var cache: map<Str, Option<Re>>

    /** Bounded, and every entry is what an uncached compile would give. */
    ghost predicate Valid()
      reads this
    {
      && |cache| <= MAX_CACHE
      && (forall pattern :: GlobKey(pattern) in cache ==> cache[GlobKey(pattern)] == Compiled(build, pattern))
      && (forall source :: RawKey(source) in cache ==> cache[RawKey(source)] == CompiledRaw(build, source))
    }

    constructor (build: Str -> Option<Re>, test: (Re, Str) -> bool)
      ensures Valid() && this.build == build && this.test == test
    {
      this.build := build;
      this.test := test;
      this.cache := map[];
    }

    /** Makes room by dropping everything, then remembers one more answer. */
    method Remember(key: Str, regex: Option<Re>)
      requires Valid() && key !in cache
      requires forall pattern :: key == GlobKey(pattern) ==> regex == Compiled(build, pattern)
      requires forall source :: key == RawKey(source) ==> regex == CompiledRaw(build, source)
      modifies this
      ensures Valid() && key in cache && cache[key] == regex
      ensures |cache| <= 1000
      ensures old(|cache|) < 1000 ==> cache == old(cache)[key := regex]
    {
      if |cache| >= MAX_CACHE {
        cache := map[];
      }
      cache := cache[key := regex];
    }

    /** Cached or not, the answer is that of an uncached compile. */
    method Compile(pattern: Str) returns (regex: Option<Re>)
      requires Valid()
      modifies this
      ensures Valid() && regex == Compiled(build, pattern)
    {
      var key := GlobKey(pattern);
      if key in cache {
        return cache[key];
      }
      regex := None;
      if |pattern| > 2 && pattern[0] == SLASH && pattern[|pattern| - 1] == SLASH {
        regex := build(pattern[1..|pattern| - 1]);
      } else if STAR in pattern || QUESTION in pattern {
        regex := build(Glob.Source(pattern));
      }
      forall other ensures key == GlobKey(other) ==> other == pattern {
        KeysDistinct(other, pattern);
      }
      forall other ensures key != RawKey(other) {
        KeysDistinct(pattern, other);
      }
      Remember(key, regex);
    }

    method CompileRaw(source: Str) returns (regex: Option<Re>)
      requires Valid()
      modifies this
      ensures Valid() && regex == CompiledRaw(build, source)
    {
      var key := RawKey(source);
      if key in cache {
        return cache[key];
      }
      var nested := QuantifierScan.ScanForNesting(source);
      regex := if nested then None else build(source);
      forall other ensures key == RawKey(other) ==> other == source {
        KeysDistinct(other, source);
      }
      forall other ensures key != GlobKey(other) {
        KeysDistinct(other, source);
      }
      Remember(key, regex);
    }

    /** In any state the cache can be in, through hits, misses and clears, the verdict is the uncached one. */
    method MatchPattern(value: Str, pattern: Option<Str>) returns (matched: bool)
      requires Valid()
      modifies this
      ensures Valid() && matched == Verdict(build, test, value, pattern)
    {
      if pattern.None? || pattern.value == [] || pattern.value == [STAR] {
        return true;
      }
      if value == pattern.value {
        return true;
      }
      var regex := Compile(pattern.value);
      matched := if regex.Some? then test(regex.value, value) else false;
    }

    method MatchRegex(value: Str, source: Str) returns (matched: bool)
      requires Valid()
      modifies this
      ensures Valid() && matched == RawVerdict(build, test, value, source)
    {
      var regex := CompileRaw(source);
      if regex.None? {
        return false;
      }
      matched := test(regex.value, if |value| > MAX_SUBJECT then value[..MAX_SUBJECT] else value);
    }
  }

  // ----- What a verdict means -----

  /** The engine reads the glob fragment of the grammar as written: it builds it and tests it item by item. */
  ghost predicate ReadsFragment<Re(!new)>(build: Str -> Option<Re>, test: (Re, Str) -> bool) {
    forall source: Str :: Glob.Parse(source).Some? ==>
      && build(source).Some?
      && forall value: Str :: test(build(source).value, value) == Glob.Accepts(Glob.Parse(source).value, value)
  }

  /**
   * The verdict on a wildcard pattern that is not in the delimited form is the
   * direct glob match: over whole values for the bare star, and with wildcards
   * that stop at line terminators for every other pattern. The equality
   * shortcut and the compiled expression never disagree.
   */
  lemma VerdictIsGlob<Re(!new)>(build: Str -> Option<Re>, test: (Re, Str) -> bool, value: Str, pattern: Str)
    requires ReadsFragment(build, test)
    requires HasWildcard(pattern) && !Delimited(pattern)
    ensures Verdict(build, test, value, Some(pattern)) == Glob.Matches(pattern, value, pattern == [STAR])
    ensures Text.OneLine(value) ==> Verdict(build, test, value, Some(pattern)) == Glob.Matches(pattern, value, true)
  {
    Glob.StarsMatchAnything(value);
    Glob.MatchesItself(pattern);
    Glob.SourceReadsBack(pattern);
    Glob.AcceptsIsMatches(pattern, value);
    if Text.OneLine(value) {
      Glob.OneLineMatches(pattern, value);
    }
  }

  /** Without a wildcard or delimiters only the exact text matches, and the empty pattern matches everything. */
  lemma VerdictIsEquality<Re>(build: Str -> Option<Re>, test: (Re, Str) -> bool, value: Str, pattern: Str)
    requires !HasWildcard(pattern) && !Delimited(pattern)
    ensures Verdict(build, test, value, Some(pattern)) <==> (pattern == [] || value == pattern)
  {
  }

  /** The delimited form matches its own spelling and whatever the engine finds between the slashes. */
  lemma VerdictIsRegex<Re(!new)>(build: Str -> Option<Re>, test: (Re, Str) -> bool, value: Str, inner: Str)
    requires ReadsFragment(build, test) && inner != []
    ensures var pattern := [SLASH] + inner + [SLASH];
            var matched := Verdict(build, test, value, Some(pattern));
      && (value == pattern ==> matched)
      && (value != pattern ==>
            && (build(inner).None? ==> !matched)
            && (build(inner).Some? ==> matched == test(build(inner).value, value))
            && (Glob.Parse(inner).Some? ==> matched == Glob.Accepts(Glob.Parse(inner).value, value)))
  {
    var pattern := [SLASH] + inner + [SLASH];
    assert pattern[1..|pattern| - 1] == inner;
  }

  // ----- What a custom expression may match -----

  /** What the matcher looks at: the first 256 units of a value. */
  function Subject(value: Str): (subject: Str)
    ensures subject <= value && |subject| == Min(256, |value|)
  {
    value[..Min(256, |value|)]
  }

  /**
   * The verdict of a custom expression, from the tree of its text. If some
   * quantified group holds a quantifier or an alternation the expression is
   * never built and nothing matches, whatever the engine would say. Otherwise
   * the engine decides, on the first 256 units of the value; for anchored
   * expressions of the glob fragment that is what the expression accepts.
   */
  lemma RawVerdictFromTree<Re(!new)>(build: Str -> Option<Re>, test: (Re, Str) -> bool, value: Str, source: Str)
    requires QuantifierScan.TreeOf(source).Some?
    ensures var matched := RawVerdict(build, test, value, source);
      if QuantifierScan.QuantifiedAmbiguousGroup(QuantifierScan.TreeOf(source).value) then !matched
      else
        && matched == (build(source).Some? && test(build(source).value, Subject(value)))
        && (ReadsFragment(build, test) && Glob.Parse(source).Some? ==>
              matched == Glob.Accepts(Glob.Parse(source).value, Subject(value)))
  {
    QuantifierScan.ScannerDecidesTexts(source);
    assert Subject(value) == if |value| > 256 then value[..256] else value;
  }

  // ----- Telling two texts apart -----

  function Escaped(s: Str): Str {
    if s == [] then [] else (if Glob.IsMeta(s[0]) then [BACKSLASH, s[0]] else [s[0]]) + Escaped(s[1..])
  }

  /** The text itself as a delimited regular expression, anchored and with every syntax character escaped. */
  function ExactPattern(s: Str): Str {
    [SLASH, CARET] + Escaped(s) + [DOLLAR, SLASH]
  }

  function Literals(s: Str): seq<Glob.Token> {
    if s == [] then [] else [Glob.Literal(s[0])] + Literals(s[1..])
  }

  lemma {:induction false} EscapedReadsBack(s: Str)
    ensures Glob.ParseItems(Escaped(s)) == Some(Literals(s))
    ensures |s| <= |Escaped(s)|
  {
    if s != [] {
      EscapedReadsBack(s[1..]);
      var head := if Glob.IsMeta(s[0]) then [BACKSLASH, s[0]] else [s[0]];
      assert Escaped(s) == head + Escaped(s[1..]);
      assert (head + Escaped(s[1..]))[|head|..] == Escaped(s[1..]);
    }
  }

  lemma {:induction false} LiteralsAccept(s: Str, value: Str)
    ensures Glob.Accepts(Literals(s), value) <==> value == s
  {
    if s != [] {
      assert Literals(s)[1..] == Literals(s[1..]);
      assert s == [s[0]] + s[1..];
      if value != [] {
        LiteralsAccept(s[1..], value[1..]);
        assert value == [value[0]] + value[1..];
      }
    }
  }

  /** An exact pattern matches its text, its own spelling through the equality shortcut, and nothing else. */
  lemma ExactVerdict<Re(!new)>(build: Str -> Option<Re>, test: (Re, Str) -> bool, value: Str, s: Str)
    requires ReadsFragment(build, test)
    ensures Verdict(build, test, value, Some(ExactPattern(s))) <==> (value == s || value == ExactPattern(s))
    ensures |s| < |ExactPattern(s)|
  {
    var pattern := ExactPattern(s);
    var source := [CARET] + Escaped(s) + [DOLLAR];
    assert pattern[1..|pattern| - 1] == source;
    assert source[1..|source| - 1] == Escaped(s);
    EscapedReadsBack(s);
    LiteralsAccept(s, value);
    assert Glob.Parse(source) == Some(Literals(s));
  }

  /** Any two texts are told apart by some pattern. */
  lemma SomePatternSeparates<Re(!new)>(build: Str -> Option<Re>, test: (Re, Str) -> bool, a: Str, b: Str)
    requires ReadsFragment(build, test) && a != b
    ensures exists q: Str :: Verdict(build, test, a, Some(q)) != Verdict(build, test, b, Some(q))
  {
    var longer := if |a| < |b| then b else a;
    ExactVerdict(build, test, a, longer);
    ExactVerdict(build, test, b, longer);
    assert Verdict(build, test, a, Some(ExactPattern(longer))) != Verdict(build, test, b, Some(ExactPattern(longer)));
  }

  // ----- Telling two lengths apart -----

  /** A glob for the texts of this length: one wildcard a unit, and the line terminators, which no wildcard matches. */
  function Shape(s: Str): Str {
    if s == [] then [] else [if IsLineTerminator(s[0]) then s[0] else QUESTION] + Shape(s[1..])
  }

  lemma {:induction false} ShapeFacts(s: Str)
    ensures |Shape(s)| == |s|
    ensures forall c :: c in Shape(s) ==> c == QUESTION || IsLineTerminator(c)
  {
    if s != [] {
      ShapeFacts(s[1..]);
    }
  }

  lemma {:induction false} ShapeMatches(s: Str, value: Str)
    ensures Glob.Matches(Shape(s), s, false)
    ensures Glob.Matches(Shape(s), value, false) ==> |value| == |s|
  {
    if s != [] {
      var head := if IsLineTerminator(s[0]) then s[0] else QUESTION;
      assert Shape(s)[0] == head && Shape(s)[1..] == Shape(s[1..]);
      ShapeMatches(s[1..], if value == [] then [] else value[1..]);
    }
  }

  /** The glob matches its text and no text of another length. */
  lemma ShapeVerdict<Re(!new)>(build: Str -> Option<Re>, test: (Re, Str) -> bool, value: Str, s: Str)
    requires ReadsFragment(build, test) && s != []
    ensures Verdict(build, test, s, Some(Shape(s)))
    ensures Verdict(build, test, value, Some(Shape(s))) ==> |value| == |s|
  {
    var pattern := Shape(s);
    ShapeFacts(s);
    ShapeMatches(s, value);
    assert pattern[0] in pattern;
    assert STAR !in pattern && !Delimited(pattern);
    if HasWildcard(pattern) {
      VerdictIsGlob(build, test, value, pattern);
      VerdictIsGlob(build, test, s, pattern);
    } else {
      ShapeIsText(s);
      VerdictIsEquality(build, test, value, pattern);
      VerdictIsEquality(build, test, s, pattern);
    }
  }

  lemma {:induction false} ShapeIsText(s: Str)
    requires QUESTION !in Shape(s)
    ensures Shape(s) == s
  {
    if s != [] {
      var head := if IsLineTerminator(s[0]) then s[0] else QUESTION;
      assert Shape(s)[0] == head && Shape(s)[0] in Shape(s);
      assert forall c :: c in Shape(s[1..]) ==> c in Shape(s);
      ShapeIsText(s[1..]);
    }
  }
}
