/**
 * The guard against nested quantifiers: a scanner over regular-expression text
 * with a stack of open groups, and the tree it is a scan of.
 */
module QuantifierScan {
  import opened Basics
  import opened Text

  // ----- The scanner -----

  function DigitsThenComma(s: Str): bool {
    s != [] && (s[0] == COMMA || (IsDigit(s[0]) && DigitsThenComma(s[1..])))
  }

  /** The text starts with a counted repetition that has a comma: `{`, one digit or more, `,`. */
  predicate StartsRange(s: Str) {
    |s| >= 2 && s[0] == OPEN_BRACE && IsDigit(s[1]) && DigitsThenComma(s[1..])
  }

  predicate StartsQuantifier(s: Str) {
    s != [] && (s[0] == STAR || s[0] == PLUS || StartsRange(s))
  }

  /** scanForQuantifier, on what is left of the body. */
  predicate Scan(s: Str, inClass: bool, alternation: bool)
    decreases |s|
  {
    if s == [] then false
    else if s[0] == BACKSLASH then Scan(if |s| >= 2 then s[2..] else [], inClass, alternation)
    else if inClass then Scan(s[1..], s[0] != CLOSE_CLASS, alternation)
    else if s[0] == OPEN_CLASS then Scan(s[1..], true, alternation)
    else if s[0] == STAR || s[0] == PLUS || StartsRange(s) || (alternation && s[0] == BAR) then true
    else Scan(s[1..], false, alternation)
  }

  /** hasNestedQuantifier from position i on, with the groups open there. */
  predicate Nested(source: Str, i: nat, inClass: bool, open: seq<nat>)
    requires forall k :: 0 <= k < |open| ==> open[k] < i
    decreases |source| - i
  {
    if i >= |source| then false
    else if source[i] == BACKSLASH then Nested(source, i + 2, inClass, open)
    else if inClass then Nested(source, i + 1, source[i] != CLOSE_CLASS, open)
    else if source[i] == OPEN_CLASS then Nested(source, i + 1, true, open)
    else if source[i] == OPEN then Nested(source, i + 1, false, open + [i])
    else if source[i] != CLOSE || open == [] then Nested(source, i + 1, false, open)
    else
      var start := open[|open| - 1];
      || (StartsQuantifier(source[i + 1..]) && Scan(source[start + 1..i], false, true))
      || Nested(source, i + 1, false, open[..|open| - 1])
  }

  predicate HasNestedQuantifier(source: Str) {
    Nested(source, 0, false, [])
  }

  /** The loop of scanForQuantifier. */
  method ScanForQuantifier(body: Str, alsoAlternation: bool) returns (found: bool)
    ensures found == Scan(body, false, alsoAlternation)
  {
    var inClass := false;
    var i := 0;
    assert body[0..] == body;
    while i < |body|
      invariant Scan(body, false, alsoAlternation) == Scan(if i <= |body| then body[i..] else [], inClass, alsoAlternation)
    {
      var ch := body[i];
      assert body[i..][1..] == body[i + 1..];
      if ch == BACKSLASH {
        assert i + 2 <= |body| ==> body[i..][2..] == body[i + 2..];
        i := i + 2;
        continue;
      }
      if inClass {
        if ch == CLOSE_CLASS {
          inClass := false;
        }
        i := i + 1;
        continue;
      }
      if ch == OPEN_CLASS {
        inClass := true;
        i := i + 1;
        continue;
      }
      if ch == STAR || ch == PLUS {
        return true;
      }
      if ch == OPEN_BRACE && StartsRange(body[i..]) {
        return true;
      }
      if alsoAlternation && ch == BAR {
        return true;
      }
      i := i + 1;
    }
    return false;
  }

  /** The loop of hasNestedQuantifier, with its stack of open groups. */
  method ScanForNesting(source: Str) returns (found: bool)
    ensures found == HasNestedQuantifier(source)
  {
    var open: seq<nat> := [];
    var inClass := false;
    var i := 0;
    while i < |source|
      invariant forall k :: 0 <= k < |open| ==> open[k] < i
      invariant HasNestedQuantifier(source) == Nested(source, i, inClass, open)
    {
      var ch := source[i];
      if ch == BACKSLASH {
        i := i + 2;
        continue;
      }
      if inClass {
        if ch == CLOSE_CLASS {
          inClass := false;
        }
        i := i + 1;
        continue;
      }
      if ch == OPEN_CLASS {
        inClass := true;
        i := i + 1;
        continue;
      }
      if ch == OPEN {
        open := open + [i];
        i := i + 1;
        continue;
      }
      if ch != CLOSE || open == [] {
        i := i + 1;
        continue;
      }
      var start := open[|open| - 1];
      open := open[..|open| - 1];
      var quantified := StartsQuantifier(source[i + 1..]);
      if quantified {
        var busy := ScanForQuantifier(source[start + 1..i], true);
        if busy {
          return true;
        }
      }
      i := i + 1;
    }
    return false;
  }

  // ----- The tree -----

  /** A regular expression as nested groups; everything else is the text it is written as. */
  datatype Node =
    | Unit(unit: CodeUnit)
    | Escape(unit: CodeUnit)
    | Class(body: seq<ClassItem>)
    | Group(nodes: seq<Node>)

  datatype ClassItem = Plain(unit: CodeUnit) | Escaped(unit: CodeUnit)

  predicate WellFormed(nodes: seq<Node>) {
    nodes != [] ==>
      && (match nodes[0]
          case Unit(c) => c !in {BACKSLASH, OPEN, CLOSE, OPEN_CLASS}
          case Escape(_) => true
          case Class(body) => forall x :: x in body && x.Plain? ==> x.unit !in {BACKSLASH, CLOSE_CLASS}
          case Group(inner) => WellFormed(inner))
      && WellFormed(nodes[1..])
  }

  function PrintClass(body: seq<ClassItem>): Str {
    if body == [] then []
    else PrintItem(body[0]) + PrintClass(body[1..])
  }

  function PrintItem(x: ClassItem): Str {
    match x
    case Plain(c) => [c]
    case Escaped(c) => [BACKSLASH, c]
  }

  function PrintNode(n: Node): Str
    decreases n, 1
  {
    match n
    case Unit(c) => [c]
    case Escape(c) => [BACKSLASH, c]
    case Class(body) => [OPEN_CLASS] + PrintClass(body) + [CLOSE_CLASS]
    case Group(nodes) => [OPEN] + Print(nodes) + [CLOSE]
  }

  function Print(nodes: seq<Node>): Str
    decreases nodes, 0
  {
    if nodes == [] then [] else PrintNode(nodes[0]) + Print(nodes[1..])
  }

  function DigitsThenCommaNodes(nodes: seq<Node>): bool {
    && nodes != [] && nodes[0].Unit?
    && (nodes[0].unit == COMMA || (IsDigit(nodes[0].unit) && DigitsThenCommaNodes(nodes[1..])))
  }

  /** The nodes start with a quantifier. */
  predicate Quantifier(nodes: seq<Node>) {
    && nodes != [] && nodes[0].Unit?
    && (nodes[0].unit == STAR || nodes[0].unit == PLUS
        || (nodes[0].unit == OPEN_BRACE && |nodes| >= 2 && nodes[1].Unit? && IsDigit(nodes[1].unit)
            && DigitsThenCommaNodes(nodes[1..])))
  }

  /** Somewhere in the expression, at any depth, there is a quantifier or an alternation. */
  predicate Ambiguous(nodes: seq<Node>) {
    nodes != [] &&
    (|| Quantifier(nodes)
     || (nodes[0].Unit? && nodes[0].unit == BAR)
     || (nodes[0].Group? && Ambiguous(nodes[0].nodes))
     || Ambiguous(nodes[1..]))
  }

  /** Some group, at any depth, is quantified and has an ambiguous body. */
  predicate QuantifiedAmbiguousGroup(nodes: seq<Node>) {
    nodes != [] &&
    (|| (nodes[0].Group? && QuantifiedAmbiguousGroup(nodes[0].nodes))
     || (nodes[0].Group? && Quantifier(nodes[1..]) && Ambiguous(nodes[0].nodes))
     || QuantifiedAmbiguousGroup(nodes[1..]))
  }

  // ----- The scanner reads the tree -----

  /** The text ends here or closes the enclosing group. */
  predicate Closes(s: Str) {
    s != [] ==> s[0] == CLOSE
  }

  lemma PrintHead(nodes: seq<Node>)
    requires nodes != [] && WellFormed(nodes)
    ensures var t := PrintNode(nodes[0]);
      && t != []
      && (nodes[0].Unit? ==> t == [nodes[0].unit])
      && (!nodes[0].Unit? ==> t[0] in {BACKSLASH, OPEN, OPEN_CLASS})
  {
  }

  lemma {:induction false} DigitsAgree(nodes: seq<Node>, z: Str)
    requires WellFormed(nodes) && Closes(z)
    ensures DigitsThenComma(Print(nodes) + z) == DigitsThenCommaNodes(nodes)
  {
    if nodes == [] {
      assert Print(nodes) + z == z;
    } else {
      PrintHead(nodes);
      var rest := Print(nodes[1..]) + z;
      assert Print(nodes) + z == PrintNode(nodes[0]) + rest;
      if nodes[0].Unit? {
        assert (PrintNode(nodes[0]) + rest)[1..] == rest;
        DigitsAgree(nodes[1..], z);
      }
    }
  }

  /** What printed nodes start with. */
  lemma FirstUnit(nodes: seq<Node>, z: Str)
    requires WellFormed(nodes) && Closes(z)
    ensures var s := Print(nodes) + z;
      && (s != [] && IsDigit(s[0]) <==> nodes != [] && nodes[0].Unit? && IsDigit(nodes[0].unit))
  {
    if nodes == [] {
      assert Print(nodes) + z == z;
    } else {
      PrintHead(nodes);
      assert (Print(nodes) + z)[0] == PrintNode(nodes[0])[0];
    }
  }

  lemma TailOfCons(c: CodeUnit, rest: Str)
    ensures ([c] + rest)[1..] == rest
  {
  }

  lemma PrintedUnit(nodes: seq<Node>, z: Str)
    requires nodes != [] && nodes[0].Unit?
    ensures Print(nodes) + z == [nodes[0].unit] + (Print(nodes[1..]) + z)
  {
    assert Print(nodes) == [nodes[0].unit] + Print(nodes[1..]);
  }

  lemma RangeOf(rest: Str)
    ensures StartsRange([OPEN_BRACE] + rest) == (rest != [] && IsDigit(rest[0]) && DigitsThenComma(rest))
  {
    TailOfCons(OPEN_BRACE, rest);
  }

  lemma RangeAgrees(nodes: seq<Node>, z: Str)
    requires WellFormed(nodes) && Closes(z)
    requires nodes != [] && nodes[0] == Unit(OPEN_BRACE)
    ensures StartsRange(Print(nodes) + z)
         == (|nodes| >= 2 && nodes[1].Unit? && IsDigit(nodes[1].unit) && DigitsThenCommaNodes(nodes[1..]))
  {
    hide DigitsThenComma, DigitsThenCommaNodes, Print, PrintNode, WellFormed, IsDigit;
    var tail := nodes[1..];
    var rest := Print(tail) + z;
    PrintedUnit(nodes, z);
    WellFormedHead(nodes);
    DigitsAgree(tail, z);
    FirstUnit(tail, z);
    RangeOf(rest);
  }

  lemma QuantifierAgrees(nodes: seq<Node>, z: Str)
    requires WellFormed(nodes) && Closes(z)
    ensures StartsQuantifier(Print(nodes) + z) == Quantifier(nodes)
  {
    hide DigitsThenComma, DigitsThenCommaNodes;
    if nodes == [] {
      assert Print(nodes) + z == z;
    } else {
      PrintHead(nodes);
      assert Print(nodes) + z == PrintNode(nodes[0]) + (Print(nodes[1..]) + z);
      if nodes[0] == Unit(OPEN_BRACE) {
        RangeAgrees(nodes, z);
      }
    }
  }

  lemma {:induction false} ScanClass(body: seq<ClassItem>, rest: Str, alternation: bool)
    requires forall x :: x in body && x.Plain? ==> x.unit !in {BACKSLASH, CLOSE_CLASS}
    ensures Scan(PrintClass(body) + [CLOSE_CLASS] + rest, true, alternation) == Scan(rest, false, alternation)
  {
    var s := PrintClass(body) + [CLOSE_CLASS] + rest;
    if body == [] {
      assert s[1..] == rest;
    } else {
      var tail := PrintClass(body[1..]) + [CLOSE_CLASS] + rest;
      assert body[0] in body;
      assert forall x :: x in body[1..] ==> x in body;
      if body[0].Plain? {
        assert s == [body[0].unit] + tail && s[1..] == tail;
      } else {
        assert s == [BACKSLASH, body[0].unit] + tail && s[2..] == tail;
      }
      ScanClass(body[1..], rest, alternation);
    }
  }

  /** One node that is not a group: a quantifier or a bar stops the scan, anything else is passed over. */
  lemma ScanSimple(n: Node, rest: Str)
    requires !n.Group? && WellFormed([n])
    ensures Scan(PrintNode(n) + rest, false, true)
         == ((n.Unit? && (StartsQuantifier(PrintNode(n) + rest) || n.unit == BAR)) || Scan(rest, false, true))
  {
    hide StartsRange, PrintClass;
    var s := PrintNode(n) + rest;
    match n
    case Unit(c) =>
      TailOfCons(c, rest);
    case Escape(c) =>
      assert s[2..] == rest;
    case Class(body) =>
      var tail := PrintClass(body) + [CLOSE_CLASS] + rest;
      assert s == [OPEN_CLASS] + tail;
      TailOfCons(OPEN_CLASS, tail);
      ScanClass(body, rest, true);
  }

  lemma ScanParenthesis(c: CodeUnit, rest: Str)
    requires c == OPEN || c == CLOSE
    ensures Scan([c] + rest, false, true) == Scan(rest, false, true)
  {
    TailOfCons(c, rest);
  }

  /** Scanning printed nodes finds what the tree calls ambiguous, and otherwise goes on behind them. */
  lemma {:induction false} ScanAgrees(nodes: seq<Node>, z: Str)
    requires WellFormed(nodes) && Closes(z)
    ensures Scan(Print(nodes) + z, false, true) == (Ambiguous(nodes) || Scan(z, false, true))
    decreases nodes
  {
    hide Scan, StartsQuantifier, Quantifier, WellFormed, PrintNode;
    if nodes == [] {
      assert Print(nodes) + z == z;
    } else {
      var n, rest := nodes[0], Print(nodes[1..]) + z;
      assert Print(nodes) + z == PrintNode(n) + rest;
      WellFormedHead(nodes);
      ScanAgrees(nodes[1..], z);
      QuantifierAgrees(nodes, z);
      if n.Group? {
        PrintedGroup(n.nodes, rest);
        ScanParenthesis(OPEN, Print(n.nodes) + ([CLOSE] + rest));
        ScanAgrees(n.nodes, [CLOSE] + rest);
        ScanParenthesis(CLOSE, rest);
        OnlyUnitsQuantify(nodes);
      } else {
        ScanSimple(n, rest);
        OnlyUnitsQuantify(nodes);
      }
    }
  }

  lemma PrintedGroup(inner: seq<Node>, rest: Str)
    ensures PrintNode(Group(inner)) + rest == [OPEN] + (Print(inner) + ([CLOSE] + rest))
  {
  }

  lemma OnlyUnitsQuantify(nodes: seq<Node>)
    ensures Quantifier(nodes) ==> nodes[0].Unit?
  {
  }

  lemma WellFormedHead(nodes: seq<Node>)
    requires nodes != [] && WellFormed(nodes)
    ensures WellFormed([nodes[0]]) && WellFormed(nodes[1..])
    ensures nodes[0].Group? ==> WellFormed(nodes[0].nodes)
  {
    assert [nodes[0]][1..] == [];
  }

  ghost predicate At(source: Str, i: nat, s: Str) {
    i <= |source| && source[i..] == s
  }

  lemma Advance(source: Str, i: nat, t: Str, rest: Str)
    requires At(source, i, t + rest)
    ensures At(source, i + |t|, rest)
    ensures source[i..i + |t|] == t
  {
    assert (t + rest)[|t|..] == rest;
    assert source[i..][|t|..] == source[i + |t|..];
    assert (t + rest)[..|t|] == t;
    assert source[i..][..|t|] == source[i..i + |t|];
  }

  /** Inside a class one item is passed over whole. */
  lemma NestedClassItem(source: Str, i: nat, x: ClassItem, rest: Str, open: seq<nat>)
    requires forall k :: 0 <= k < |open| ==> open[k] < i
    requires x.Plain? ==> x.unit !in {BACKSLASH, CLOSE_CLASS}
    requires At(source, i, PrintItem(x) + rest)
    ensures Nested(source, i, true, open) == Nested(source, i + |PrintItem(x)|, true, open)
  {
    assert source[i] == (PrintItem(x) + rest)[0];
  }

  lemma NestedClassEnd(source: Str, i: nat, rest: Str, open: seq<nat>)
    requires forall k :: 0 <= k < |open| ==> open[k] < i
    requires At(source, i, [CLOSE_CLASS] + rest)
    ensures Nested(source, i, true, open) == Nested(source, i + 1, false, open)
  {
    assert source[i] == ([CLOSE_CLASS] + rest)[0];
  }

  lemma {:induction false} NestedClass(source: Str, i: nat, body: seq<ClassItem>, rest: Str, open: seq<nat>)
    requires forall k :: 0 <= k < |open| ==> open[k] < i
    requires forall x :: x in body && x.Plain? ==> x.unit !in {BACKSLASH, CLOSE_CLASS}
    requires At(source, i, PrintClass(body) + [CLOSE_CLASS] + rest)
    ensures Nested(source, i, true, open) == Nested(source, i + |PrintClass(body)| + 1, false, open)
    decreases |body|
  {
    hide Nested, At, PrintItem;
    if body == [] {
      assert PrintClass(body) + [CLOSE_CLASS] + rest == [CLOSE_CLASS] + rest;
      NestedClassEnd(source, i, rest, open);
    } else {
      var t, tail := PrintItem(body[0]), PrintClass(body[1..]) + [CLOSE_CLASS] + rest;
      assert body[0] in body;
      assert forall x :: x in body[1..] ==> x in body;
      assert PrintClass(body) + [CLOSE_CLASS] + rest == t + tail;
      NestedClassItem(source, i, body[0], tail, open);
      Advance(source, i, t, tail);
      NestedClass(source, i + |t|, body[1..], rest, open);
    }
  }

  lemma ClassNode(source: Str, i: nat, body: seq<ClassItem>, rest: Str, open: seq<nat>)
    requires forall x :: x in body && x.Plain? ==> x.unit !in {BACKSLASH, CLOSE_CLASS}
    requires forall k :: 0 <= k < |open| ==> open[k] < i
    requires At(source, i, PrintNode(Class(body)) + rest)
    ensures Nested(source, i, false, open) == Nested(source, i + |PrintNode(Class(body))|, false, open)
  {
    hide Nested;
    var tail := PrintClass(body) + [CLOSE_CLASS] + rest;
    assert PrintNode(Class(body)) + rest == [OPEN_CLASS] + tail;
    Advance(source, i, [OPEN_CLASS], tail);
    NestedClass(source, i + 1, body, rest, open);
    NestedClassStart(source, i, open);
  }

  lemma NestedClassStart(source: Str, i: nat, open: seq<nat>)
    requires forall k :: 0 <= k < |open| ==> open[k] < i
    requires i < |source| && source[i] == OPEN_CLASS
    ensures Nested(source, i, false, open) == Nested(source, i + 1, true, open)
  {
  }

  /** Anything but a group is passed over. */
  lemma SimpleNode(source: Str, i: nat, n: Node, rest: Str, open: seq<nat>)
    requires !n.Group? && WellFormed([n])
    requires forall k :: 0 <= k < |open| ==> open[k] < i
    requires At(source, i, PrintNode(n) + rest)
    ensures Nested(source, i, false, open) == Nested(source, i + |PrintNode(n)|, false, open)
  {
    assert source[i] == (PrintNode(n) + rest)[0];
    if n.Class? {
      ClassNode(source, i, n.body, rest, open);
    }
  }

  /** From the start of printed nodes the scanner finds what the tree says, or goes on behind them with the same stack. */
  lemma {:induction false} NestedAgrees(source: Str, i: nat, nodes: seq<Node>, z: Str, open: seq<nat>)
    requires WellFormed(nodes) && Closes(z)
    requires forall k :: 0 <= k < |open| ==> open[k] < i
    requires At(source, i, Print(nodes) + z)
    ensures Nested(source, i, false, open)
         == (QuantifiedAmbiguousGroup(nodes) || Nested(source, i + |Print(nodes)|, false, open))
    decreases nodes, 0
  {
    hide Nested, At, StartsQuantifier, Quantifier, Scan, Ambiguous, WellFormed, PrintNode;
    if nodes != [] {
      var t, rest := PrintNode(nodes[0]), Print(nodes[1..]) + z;
      assert Print(nodes) + z == t + rest;
      WellFormedHead(nodes);
      Advance(source, i, t, rest);
      NestedAgrees(source, i + |t|, nodes[1..], z, open);
      if nodes[0].Group? {
        GroupAgrees(source, i, nodes[0].nodes, rest, open);
        QuantifierAgrees(nodes[1..], z);
        ScanBody(nodes[0].nodes);
      } else {
        SimpleNode(source, i, nodes[0], rest, open);
      }
    }
  }

  lemma ScanBody(inner: seq<Node>)
    requires WellFormed(inner)
    ensures Scan(Print(inner), false, true) == Ambiguous(inner)
  {
    ScanAgrees(inner, []);
    assert Print(inner) + [] == Print(inner);
  }

  /** Across one group: what its body says, or the check at its closing parenthesis, or what follows it. */
  lemma {:induction false} GroupAgrees(source: Str, i: nat, inner: seq<Node>, rest: Str, open: seq<nat>)
    requires WellFormed(inner)
    requires forall k :: 0 <= k < |open| ==> open[k] < i
    requires At(source, i, PrintNode(Group(inner)) + rest)
    ensures Nested(source, i, false, open)
         == (|| QuantifiedAmbiguousGroup(inner)
             || (StartsQuantifier(rest) && Scan(Print(inner), false, true))
             || Nested(source, i + |PrintNode(Group(inner))|, false, open))
    decreases inner, 1
  {
    hide Nested, Scan, StartsQuantifier, QuantifiedAmbiguousGroup, WellFormed;
    var body := Print(inner);
    assert PrintNode(Group(inner)) + rest == [OPEN] + (body + ([CLOSE] + rest));
    Advance(source, i, [OPEN], body + ([CLOSE] + rest));
    assert source[i] == OPEN;
    NestedOpens(source, i, open);
    NestedAgrees(source, i + 1, inner, [CLOSE] + rest, open + [i]);
    var close := i + 1 + |body|;
    Advance(source, i + 1, body, [CLOSE] + rest);
    Advance(source, close, [CLOSE], rest);
    assert source[close] == CLOSE && source[close + 1..] == rest;
    assert source[i + 1..close] == body;
    NestedCloses(source, close, open, i);
  }

  lemma NestedOpens(source: Str, i: nat, open: seq<nat>)
    requires forall k :: 0 <= k < |open| ==> open[k] < i
    requires i < |source| && source[i] == OPEN
    ensures Nested(source, i, false, open) == Nested(source, i + 1, false, open + [i])
  {
  }

  lemma NestedCloses(source: Str, i: nat, open: seq<nat>, start: nat)
    requires forall k :: 0 <= k < |open| ==> open[k] < i
    requires start < i < |source| && source[i] == CLOSE
    ensures Nested(source, i, false, open + [start])
         == ((StartsQuantifier(source[i + 1..]) && Scan(source[start + 1..i], false, true))
             || Nested(source, i + 1, false, open))
  {
    var stack := open + [start];
    assert stack[|stack| - 1] == start && stack[..|stack| - 1] == open;
  }

  /**
   * For every expression tree, the scanner run on its text finds a nested
   * quantifier if and only if some quantified group of the tree contains a
   * quantifier or an alternation.
   */
  lemma ScannerReadsTheTree(nodes: seq<Node>)
    requires WellFormed(nodes)
    ensures HasNestedQuantifier(Print(nodes)) <==> QuantifiedAmbiguousGroup(nodes)
  {
    var source := Print(nodes);
    assert source + [] == source && source[0..] == source;
    NestedAgrees(source, 0, nodes, [], []);
  }

  // ----- From text to tree -----

  /** A class up to its closing bracket, and what follows it. */
  function ReadClass(s: Str): (r: Option<(seq<ClassItem>, Str)>)
    ensures r.Some? ==> |r.value.1| < |s|
    decreases |s|
  {
    if s == [] then None
    else if s[0] == CLOSE_CLASS then Some(([], s[1..]))
    else if s[0] == BACKSLASH && |s| == 1 then None
    else
      var (x, rest) := if s[0] == BACKSLASH then (Escaped(s[1]), s[2..]) else (Plain(s[0]), s[1..]);
      match ReadClass(rest)
      case None => None
      case Some((body, after)) => Some(([x] + body, after))
  }

  /** One node of a text that neither ends nor closes a group, and what follows it. */
  function ReadNode(s: Str): (r: Option<(Node, Str)>)
    requires !Closes(s)
    ensures r.Some? ==> |r.value.1| < |s|
    decreases |s|, 0
  {
    if s[0] == BACKSLASH then
      if |s| >= 2 then Some((Escape(s[1]), s[2..])) else None
    else if s[0] == OPEN_CLASS then
      match ReadClass(s[1..])
      case None => None
      case Some((body, rest)) => Some((Class(body), rest))
    else if s[0] == OPEN then
      match ReadNodes(s[1..])
      case None => None
      case Some((inner, rest)) => if rest == [] then None else Some((Group(inner), rest[1..]))
    else Some((Unit(s[0]), s[1..]))
  }

  /** The nodes up to the end of the text or of the enclosing group. */
  function ReadNodes(s: Str): (r: Option<(seq<Node>, Str)>)
    ensures r.Some? ==> |r.value.1| <= |s| && Closes(r.value.1)
    decreases |s|, 1
  {
    if Closes(s) then Some(([], s))
    else
      match ReadNode(s)
      case None => None
      case Some((n, rest)) =>
        match ReadNodes(rest)
        case None => None
        case Some((nodes, after)) => Some(([n] + nodes, after))
  }

  lemma {:induction false} ClassOfText(s: Str)
    requires ReadClass(s).Some?
    ensures var (body, rest) := ReadClass(s).value;
      && (forall x :: x in body && x.Plain? ==> x.unit !in {BACKSLASH, CLOSE_CLASS})
      && PrintClass(body) + [CLOSE_CLASS] + rest == s
    decreases |s|
  {
    if s[0] == CLOSE_CLASS {
      assert s == [s[0]] + s[1..];
    } else {
      var (x, rest) := if s[0] == BACKSLASH then (Escaped(s[1]), s[2..]) else (Plain(s[0]), s[1..]);
      ClassOfText(rest);
      var (tail, after) := ReadClass(rest).value;
      assert ([x] + tail)[1..] == tail;
      assert s == PrintItem(x) + rest;
      assert PrintClass([x] + tail) == PrintItem(x) + PrintClass(tail);
    }
  }

  lemma {:induction false} NodeOfText(s: Str)
    requires !Closes(s) && ReadNode(s).Some?
    ensures var (n, rest) := ReadNode(s).value;
      WellFormed([n]) && PrintNode(n) + rest == s
    decreases |s|, 0
  {
    var (n, rest) := ReadNode(s).value;
    assert [n][1..] == [];
    assert s == [s[0]] + s[1..];
    if s[0] == OPEN_CLASS {
      ClassOfText(s[1..]);
    } else if s[0] == OPEN {
      NodesOfText(s[1..]);
      PrintedGroup(n.nodes, rest);
      var after := ReadNodes(s[1..]).value.1;
      assert after == [CLOSE] + rest;
    }
  }

  lemma {:induction false} NodesOfText(s: Str)
    requires ReadNodes(s).Some?
    ensures var (nodes, rest) := ReadNodes(s).value;
      WellFormed(nodes) && Print(nodes) + rest == s
    decreases |s|, 1
  {
    hide ReadNode, WellFormed, PrintNode;
    if Closes(s) {
      assert Print([]) + s == s && WellFormed([]) by { NoNodes(); }
    } else {
      NodeOfText(s);
      var (n, rest) := ReadNode(s).value;
      NodesOfText(rest);
      var (tail, after) := ReadNodes(rest).value;
      ConsNodes(n, tail);
      assert Print([n] + tail) + after == PrintNode(n) + (Print(tail) + after);
    }
  }

  lemma NoNodes()
    ensures WellFormed([]) && Print([]) == []
  {
  }

  lemma ConsNodes(n: Node, tail: seq<Node>)
    requires WellFormed([n]) && WellFormed(tail)
    ensures WellFormed([n] + tail) && Print([n] + tail) == PrintNode(n) + Print(tail)
  {
    assert ([n] + tail)[1..] == tail;
  }

  lemma {:induction false} ClassReadsBack(body: seq<ClassItem>, rest: Str)
    requires forall x :: x in body && x.Plain? ==> x.unit !in {BACKSLASH, CLOSE_CLASS}
    ensures ReadClass(PrintClass(body) + [CLOSE_CLASS] + rest) == Some((body, rest))
  {
    var s := PrintClass(body) + [CLOSE_CLASS] + rest;
    if body == [] {
      assert s[1..] == rest;
    } else {
      var tail := PrintClass(body[1..]) + [CLOSE_CLASS] + rest;
      assert body[0] in body && forall x :: x in body[1..] ==> x in body;
      assert s == PrintItem(body[0]) + tail && s[|PrintItem(body[0])|..] == tail;
      ClassReadsBack(body[1..], rest);
      assert [body[0]] + body[1..] == body;
    }
  }

  lemma {:induction false} NodeReadsBack(n: Node, rest: Str)
    requires WellFormed([n])
    ensures !Closes(PrintNode(n) + rest) && ReadNode(PrintNode(n) + rest) == Some((n, rest))
    decreases n, 1
  {
    hide ReadClass, ReadNodes, PrintClass, Print;
    var s := PrintNode(n) + rest;
    WellFormedHead([n]);
    match n
    case Unit(c) => TailOfCons(c, rest);
    case Escape(c) => assert s[2..] == rest;
    case Class(body) =>
      var tail := PrintClass(body) + [CLOSE_CLASS] + rest;
      assert s == [OPEN_CLASS] + tail;
      TailOfCons(OPEN_CLASS, tail);
      ClassReadsBack(body, rest);
    case Group(inner) =>
      var tail := Print(inner) + ([CLOSE] + rest);
      PrintedGroup(inner, rest);
      TailOfCons(OPEN, tail);
      NodesReadBack(inner, [CLOSE] + rest);
      TailOfCons(CLOSE, rest);
  }

  /** Reading is the inverse of printing. */
  lemma {:induction false} NodesReadBack(nodes: seq<Node>, rest: Str)
    requires WellFormed(nodes) && Closes(rest)
    ensures ReadNodes(Print(nodes) + rest) == Some((nodes, rest))
    decreases nodes, 0
  {
    hide ReadNode, WellFormed, PrintNode;
    if nodes == [] {
      assert Print(nodes) + rest == rest;
    } else {
      var tail := Print(nodes[1..]) + rest;
      WellFormedHead(nodes);
      NodeReadsBack(nodes[0], tail);
      NodesReadBack(nodes[1..], rest);
      assert [nodes[0]] + nodes[1..] == nodes;
      assert Print(nodes) + rest == PrintNode(nodes[0]) + tail;
    }
  }

  /** The tree of a text whose groups and classes are all closed. */
  function TreeOf(source: Str): Option<seq<Node>> {
    match ReadNodes(source)
    case None => None
    case Some((nodes, rest)) => if rest == [] then Some(nodes) else None
  }

  /** Every tree is read back from its text. */
  lemma TreeOfPrinted(nodes: seq<Node>)
    requires WellFormed(nodes)
    ensures TreeOf(Print(nodes)) == Some(nodes)
  {
    NodesReadBack(nodes, []);
    assert Print(nodes) + [] == Print(nodes);
  }

  /**
   * For every text whose groups and classes are closed, the scanner's verdict is
   * that of its tree, and the tree prints back as the text.
   */
  lemma ScannerDecidesTexts(source: Str)
    requires TreeOf(source).Some?
    ensures Print(TreeOf(source).value) == source
    ensures HasNestedQuantifier(source) <==> QuantifiedAmbiguousGroup(TreeOf(source).value)
  {
    NodesOfText(source);
    assert Print(TreeOf(source).value) + [] == Print(TreeOf(source).value);
    ScannerReadsTheTree(TreeOf(source).value);
  }

  // ----- A single group -----

  /** Text without groups, classes and escapes. */
  predicate Flat(s: Str) {
    forall i :: 0 <= i < |s| ==> s[i] != '(' as int && s[i] != ')' as int && s[i] != '[' as int && s[i] != '\\' as int
  }

  /** A counted repetition with a comma starts at i and has it at j: `{12,` for one. */
  predicate RangeAt(s: Str, i: nat, j: nat) {
    && i + 1 < j < |s| && s[i] == '{' as int && s[j] == ',' as int
    && forall k :: i < k < j ==> '0' as int <= s[k] <= '9' as int
  }

  /** A quantifier that can repeat without bound starts at i. */
  ghost predicate QuantifierAt(s: Str, i: nat) {
    i < |s| && (s[i] == '*' as int || s[i] == '+' as int || exists j :: RangeAt(s, i, j))
  }

  lemma {:induction false} DigitsReach(s: Str, i: nat)
    requires i <= |s|
    ensures DigitsThenComma(s[i..])
       <==> exists j :: i <= j < |s| && s[j] == ',' as int && forall k :: i <= k < j ==> IsDigit(s[k])
    decreases |s| - i
  {
    if i < |s| {
      assert s[i..][0] == s[i] && s[i..][1..] == s[i + 1..];
      DigitsReach(s, i + 1);
    }
  }

  lemma StartsAt(s: Str, i: nat)
    requires i <= |s|
    ensures StartsQuantifier(s[i..]) <==> QuantifierAt(s, i)
  {
    hide DigitsThenComma;
    if i < |s| {
      assert s[i..][0] == s[i] && s[i..][1..] == s[i + 1..];
      DigitsReach(s, i + 1);
      if i + 1 < |s| {
        assert s[i..][1] == s[i + 1];
      }
      if StartsRange(s[i..]) {
        var j :| i + 1 <= j < |s| && s[j] == ',' as int && forall k :: i + 1 <= k < j ==> IsDigit(s[k]);
        assert RangeAt(s, i, j);
      }
    }
  }

  lemma {:induction false} FlatScan(s: Str, i: nat)
    requires Flat(s) && i <= |s|
    ensures Scan(s[i..], false, true) <==> exists k :: i <= k < |s| && (QuantifierAt(s, k) || s[k] == '|' as int)
    decreases |s| - i
  {
    hide StartsRange, QuantifierAt;
    if i < |s| {
      assert s[i..][0] == s[i] && s[i..][1..] == s[i + 1..];
      StartsAt(s, i);
      FlatScan(s, i + 1);
      if Scan(s[i..], false, true) && !Scan(s[i + 1..], false, true) {
        assert QuantifierAt(s, i) || s[i] == '|' as int;
      }
    }
  }

  lemma {:induction false} SkipFlat(source: Str, i: nat, j: nat, open: seq<nat>)
    requires forall k :: 0 <= k < |open| ==> open[k] < i
    requires i <= j <= |source| && Flat(source[i..j])
    ensures Nested(source, i, false, open) == Nested(source, j, false, open)
    decreases j - i
  {
    hide StartsQuantifier, Scan;
    if i < j {
      assert source[i..j][0] == source[i] && source[i..j][1..] == source[i + 1..j];
      SkipFlat(source, i + 1, j, open);
    }
  }

  /**
   * Around a single group the guard says outright: refused exactly when an
   * unbounded quantifier follows the group and its body has one or an alternation.
   */
  lemma OneGroup(before: Str, body: Str, after: Str)
    requires Flat(before) && Flat(body) && Flat(after)
    ensures HasNestedQuantifier(before + ['(' as int] + body + [')' as int] + after)
       <==> && QuantifierAt(after, 0)
            && exists k :: 0 <= k < |body| && (QuantifierAt(body, k) || body[k] == '|' as int)
  {
    hide Nested, Scan, StartsQuantifier, QuantifierAt;
    var source := before + ['(' as int] + body + [')' as int] + after;
    var start := |before|;
    var close := start + 1 + |body|;
    assert source[0..start] == before && source[start + 1..close] == body && source[close + 1..] == after;
    assert source[close + 1..|source|] == after;
    assert source[start] == OPEN && source[close] == CLOSE;
    SkipFlat(source, 0, start, []);
    NestedOpens(source, start, []);
    assert [] + [start] == [start];
    SkipFlat(source, start + 1, close, [start]);
    NestedCloses(source, close, [], start);
    SkipFlat(source, close + 1, |source|, []);
    assert after[0..] == after && body[0..] == body;
    StartsAt(after, 0);
    FlatScan(body, 0);
    assert !Nested(source, |source|, false, []) by { NothingLeft(source); }
  }

  lemma NothingLeft(source: Str)
    ensures !Nested(source, |source|, false, [])
  {
  }
}
