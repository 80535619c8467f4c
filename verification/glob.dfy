/** Glob patterns: the regular expression they are printed to, and what that expression matches. */
module Glob {
  import opened Basics
  import opened Text

  // ----- Printing -----

  datatype Token = Literal(unit: CodeUnit) | AnyChar | AnyString

  function TokenOf(c: CodeUnit): Token {
    if c == STAR then AnyString else if c == QUESTION then AnyChar else Literal(c)
  }

  function Tokens(pattern: Str): (ts: seq<Token>)
    ensures |ts| == |pattern|
  {
    if pattern == [] then [] else [TokenOf(pattern[0])] + Tokens(pattern[1..])
  }

  /** The characters REGEX_METACHARS escapes. */
  predicate IsMeta(c: CodeUnit) {
    c in {DOT, STAR, PLUS, QUESTION, CARET, DOLLAR, OPEN_BRACE, CLOSE_BRACE, OPEN, CLOSE, BAR, OPEN_CLASS, CLOSE_CLASS, BACKSLASH}
  }

  /** What one pattern character is printed to. */
  function PrintUnit(c: CodeUnit): Str {
    if c == STAR then [DOT, STAR]
    else if c == QUESTION then [DOT]
    else if IsMeta(c) then [BACKSLASH, c]
    else [c]
  }

  function PrintUnits(pattern: Str): Str {
    if pattern == [] then [] else PrintUnit(pattern[0]) + PrintUnits(pattern[1..])
  }

  /** The source handed to the RegExp constructor. */
  function Source(pattern: Str): Str {
    [CARET] + PrintUnits(pattern) + [DOLLAR]
  }

  // ----- Reading the source as a regular expression -----

  /** The syntax characters of section 22.2.1 of ECMA-262, without the slash. */
  predicate IsSyntax(c: CodeUnit) {
    c in {'^' as int, '$' as int, '\\' as int, '.' as int, '*' as int, '+' as int, '?' as int,
          '(' as int, ')' as int, '[' as int, ']' as int, '{' as int, '}' as int, '|' as int}
  }

  /**
   * The part of the regular-expression grammar the printer stays within: plain
   * characters, escaped syntax characters, `.` and `.*`. Anything else,
   * a quantifier on a literal for one, is outside it.
   */
  function ParseItems(source: Str): Option<seq<Token>> {
    if source == [] then Some([])
    else if source[0] == BACKSLASH then
      if |source| >= 2 && IsSyntax(source[1]) then Prepend(Literal(source[1]), ParseItems(source[2..])) else None
    else if source[0] == DOT then
      if |source| >= 2 && source[1] == STAR then Prepend(AnyString, ParseItems(source[2..]))
      else Prepend(AnyChar, ParseItems(source[1..]))
    else if IsSyntax(source[0]) then None
    else Prepend(Literal(source[0]), ParseItems(source[1..]))
  }

  function Prepend(t: Token, rest: Option<seq<Token>>): Option<seq<Token>> {
    if rest.None? then None else Some([t] + rest.value)
  }

  /** An expression anchored at both ends. */
  function Parse(source: Str): Option<seq<Token>> {
    if |source| >= 2 && source[0] == CARET && source[|source| - 1] == DOLLAR then
      ParseItems(source[1..|source| - 1])
    else None
  }

  /** A printed unit is read back as its token, as long as no stray star follows. */
  lemma UnitReadsBack(c: CodeUnit, rest: Str)
    requires rest != [] ==> rest[0] != STAR
    ensures ParseItems(PrintUnit(c) + rest) == Prepend(TokenOf(c), ParseItems(rest))
  {
    var source := PrintUnit(c) + rest;
    assert source[|PrintUnit(c)|..] == rest;
  }

  lemma PrintNeverStartsWithStar(pattern: Str)
    ensures PrintUnits(pattern) != [] ==> PrintUnits(pattern)[0] != STAR
  {
  }

  lemma {:induction false} ItemsReadBack(pattern: Str)
    ensures ParseItems(PrintUnits(pattern)) == Some(Tokens(pattern))
  {
    if pattern != [] {
      ItemsReadBack(pattern[1..]);
      PrintNeverStartsWithStar(pattern[1..]);
      UnitReadsBack(pattern[0], PrintUnits(pattern[1..]));
    }
  }

  /** Round trip: the printed source reads back as exactly the tokens of the pattern, for every pattern. */
  lemma SourceReadsBack(pattern: Str)
    ensures Parse(Source(pattern)) == Some(Tokens(pattern))
  {
    var source := Source(pattern);
    assert source[1..|source| - 1] == PrintUnits(pattern);
    ItemsReadBack(pattern);
  }

  /** Two patterns are printed to one source only if they are the same pattern. */
  lemma SourceInjective(a: Str, b: Str)
    requires Source(a) == Source(b)
    ensures a == b
  {
    SourceReadsBack(a);
    SourceReadsBack(b);
    TokensInjective(a, b);
  }

  lemma {:induction false} TokensInjective(a: Str, b: Str)
    requires Tokens(a) == Tokens(b)
    ensures a == b
  {
    if a != [] {
      assert Tokens(a)[0] == Tokens(b)[0] && Tokens(a)[1..] == Tokens(b)[1..];
      TokensInjective(a[1..], b[1..]);
      assert a == [a[0]] + a[1..] && b == [b[0]] + b[1..];
    }
  }

  // ----- Matching -----

  /** What the anchored expression accepts. */
  predicate Accepts(items: seq<Token>, value: Str) {
    if items == [] then value == []
    else match items[0]
      case Literal(c) => value != [] && value[0] == c && Accepts(items[1..], value[1..])
      case AnyChar => value != [] && !IsLineTerminator(value[0]) && Accepts(items[1..], value[1..])
      case AnyString => exists k :: 0 <= k <= |value| && OneLine(value[..k]) && Accepts(items[1..], value[k..])
  }

  /**
   * Glob matching by direct recursion on the pattern. With `acrossLines` the
   * wildcards stand for anything; without it they stop at line terminators.
   */
  predicate Matches(pattern: Str, value: Str, acrossLines: bool)
    decreases |pattern| + |value|
  {
    if pattern == [] then value == []
    else if pattern[0] == STAR then
      || Matches(pattern[1..], value, acrossLines)
      || (value != [] && (acrossLines || !IsLineTerminator(value[0])) && Matches(pattern, value[1..], acrossLines))
    else
      && value != []
      && (if pattern[0] == QUESTION then acrossLines || !IsLineTerminator(value[0]) else value[0] == pattern[0])
      && Matches(pattern[1..], value[1..], acrossLines)
  }

  lemma SkipOne(value: Str, k: nat)
    requires 0 < k <= |value| && OneLine(value[..k])
    ensures !IsLineTerminator(value[0]) && OneLine(value[1..][..k - 1]) && value[1..][k - 1..] == value[k..]
  {
    assert value[0] in value[..k];
    assert value[1..][..k - 1] == value[..k][1..];
    assert forall c :: c in value[..k][1..] ==> c in value[..k];
  }

  lemma TakeOne(value: Str, k: nat)
    requires value != [] && !IsLineTerminator(value[0]) && k <= |value[1..]| && OneLine(value[1..][..k])
    ensures OneLine(value[..k + 1]) && value[k + 1..] == value[1..][k..]
  {
    assert value[..k + 1] == [value[0]] + value[1..][..k];
  }

  lemma StarAccepts(rest: seq<Token>, value: Str)
    ensures Accepts([AnyString] + rest, value)
       <==> Accepts(rest, value)
            || (value != [] && !IsLineTerminator(value[0]) && Accepts([AnyString] + rest, value[1..]))
  {
    hide OneLine, IsLineTerminator;
    var items := [AnyString] + rest;
    assert items[1..] == rest;
    assert value[0..] == value && OneLine(value[..0]) by { OneLineEmpty(); }
    if Accepts(items, value) {
      var k :| 0 <= k <= |value| && OneLine(value[..k]) && Accepts(rest, value[k..]);
      if k > 0 {
        SkipOne(value, k);
      }
    }
    if value != [] && !IsLineTerminator(value[0]) && Accepts(items, value[1..]) {
      var k :| 0 <= k <= |value[1..]| && OneLine(value[1..][..k]) && Accepts(rest, value[1..][k..]);
      TakeOne(value, k);
    }
  }

  lemma OneLineEmpty()
    ensures OneLine([])
  {
  }

  /** On every value the printed expression is the glob whose wildcards stop at line terminators. */
  lemma {:induction false} AcceptsIsMatches(pattern: Str, value: Str)
    ensures Accepts(Tokens(pattern), value) <==> Matches(pattern, value, false)
    decreases |pattern| + |value|
  {
    if pattern != [] {
      var items := Tokens(pattern);
      assert items[1..] == Tokens(pattern[1..]);
      if pattern[0] == STAR {
        assert items == [AnyString] + Tokens(pattern[1..]);
        StarAccepts(Tokens(pattern[1..]), value);
        AcceptsIsMatches(pattern[1..], value);
        if value != [] {
          AcceptsIsMatches(pattern, value[1..]);
        }
      } else if value != [] {
        AcceptsIsMatches(pattern[1..], value[1..]);
      }
    }
  }

  /** Without line terminators in the value the two readings of a glob agree. */
  lemma {:induction false} OneLineMatches(pattern: Str, value: Str)
    requires OneLine(value)
    ensures Matches(pattern, value, false) <==> Matches(pattern, value, true)
    decreases |pattern| + |value|
  {
    if pattern != [] {
      if pattern[0] == STAR {
        OneLineMatches(pattern[1..], value);
      }
      if value != [] {
        assert OneLine(value[1..]);
        if pattern[0] == STAR {
          OneLineMatches(pattern, value[1..]);
        } else {
          OneLineMatches(pattern[1..], value[1..]);
        }
      }
    }
  }

  lemma {:induction false} NarrowImpliesWide(pattern: Str, value: Str)
    requires Matches(pattern, value, false)
    ensures Matches(pattern, value, true)
    decreases |pattern| + |value|
  {
    if pattern != [] {
      if pattern[0] == STAR {
        if Matches(pattern[1..], value, false) {
          NarrowImpliesWide(pattern[1..], value);
        } else {
          NarrowImpliesWide(pattern, value[1..]);
        }
      } else {
        NarrowImpliesWide(pattern[1..], value[1..]);
      }
    }
  }

  /** A pattern always matches its own text, so the equality shortcut adds nothing to a glob. */
  lemma {:induction false} MatchesItself(pattern: Str)
    ensures Matches(pattern, pattern, false)
  {
    if pattern != [] {
      MatchesItself(pattern[1..]);
      if pattern[0] == STAR {
        assert Matches(pattern, pattern[1..], false);
      }
    }
  }

  const TWO_STARS: Str := [STAR, STAR]

  lemma {:induction false} StarsMatchAnything(value: Str)
    ensures Matches([STAR], value, true) && Matches(TWO_STARS, value, true)
    decreases |value|
  {
    assert TWO_STARS[1..] == [STAR] && [STAR][1..] == [];
    if value != [] {
      StarsMatchAnything(value[1..]);
    } else {
      assert Matches([], value, true);
      assert Matches([STAR], value, true);
    }
  }

  lemma {:induction false} StarStaysOnLine(value: Str)
    ensures Matches([STAR], value, false) <==> OneLine(value)
    decreases |value|
  {
    assert [STAR][1..] == [];
    if value != [] {
      StarStaysOnLine(value[1..]);
      assert value == [value[0]] + value[1..];
    }
  }

  lemma {:induction false} StarsStayOnLine(value: Str)
    ensures Matches(TWO_STARS, value, false) <==> OneLine(value)
    decreases |value|
  {
    assert TWO_STARS[1..] == [STAR];
    StarStaysOnLine(value);
    if value != [] {
      StarsStayOnLine(value[1..]);
      assert value == [value[0]] + value[1..];
    }
  }

  /**
   * Exactly when the printed expression is the glob: for the values without a
   * line terminator. For any other value some glob tells the two apart.
   */
  lemma FaithfulExactlyOnOneLine(value: Str)
    ensures OneLine(value) <==> forall pattern: Str :: Accepts(Tokens(pattern), value) == Matches(pattern, value, true)
  {
    if OneLine(value) {
      forall pattern: Str ensures Accepts(Tokens(pattern), value) == Matches(pattern, value, true) {
        AcceptsIsMatches(pattern, value);
        OneLineMatches(pattern, value);
      }
    } else {
      AcceptsIsMatches(TWO_STARS, value);
      StarsStayOnLine(value);
      StarsMatchAnything(value);
      assert Accepts(Tokens(TWO_STARS), value) != Matches(TWO_STARS, value, true);
    }
  }
}
