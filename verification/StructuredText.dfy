/** The grammar of bracketed and quoted values, and the bracket and quote machine that recognises it
    (app/error_reporting.py:71-130). */
module StructuredText {
  import opened Outcomes

  const DEPTH_LIMIT := 64

  predicate IsOpen(c: char) { c == '[' || c == '{' }
  predicate IsClose(c: char) { c == ']' || c == '}' }
  predicate IsQuote(c: char) { c == '\'' || c == '"' }
  predicate IsLineBreak(c: char) { c == '\r' || c == '\n' }

  function ClosingFor(c: char): char {
    if c == '[' then ']' else '}'
  }

  // ----- the grammar -----

  datatype Unit = Raw(c: char) | Escaped(c: char)
  datatype Units = NoUnits | MoreUnits(head: Unit, tail: Units)

  datatype Node = Plain(c: char) | Quoted(quote: char, units: Units)
    | Brackets(children: Forest) | Braces(children: Forest)
  datatype Forest = Empty | Cons(head: Node, tail: Forest)

  predicate UnitsFit(units: Units, quote: char) {
    match units
    case NoUnits => true
    case MoreUnits(Raw(c), tail) => c != quote && c != '\\' && c !in "\r\n" && UnitsFit(tail, quote)
    case MoreUnits(Escaped(c), tail) => c !in "\r\n" && UnitsFit(tail, quote)
  }

  predicate NodeFits(node: Node) {
    match node
    case Plain(c) => c !in "[]{}'\""
    case Quoted(quote, units) => quote in "'\"" && UnitsFit(units, quote)
    case Brackets(children) => ForestFits(children)
    case Braces(children) => ForestFits(children)
  }

  predicate ForestFits(forest: Forest) {
    match forest
    case Empty => true
    case Cons(head, tail) => NodeFits(head) && ForestFits(tail)
  }

  function Depth(node: Node): nat {
    match node
    case Plain(_) => 0
    case Quoted(_, _) => 0
    case Brackets(children) => 1 + ForestDepth(children)
    case Braces(children) => 1 + ForestDepth(children)
  }

  function ForestDepth(forest: Forest): nat {
    match forest
    case Empty => 0
    case Cons(head, tail) => if Depth(head) >= ForestDepth(tail) then Depth(head) else ForestDepth(tail)
  }

  function UnitsText(units: Units): string {
    match units
    case NoUnits => ""
    case MoreUnits(Raw(c), tail) => [c] + UnitsText(tail)
    case MoreUnits(Escaped(c), tail) => ['\\', c] + UnitsText(tail)
  }

  function NodeText(node: Node): string {
    match node
    case Plain(c) => [c]
    case Quoted(quote, units) => [quote] + UnitsText(units) + [quote]
    case Brackets(children) => "[" + ForestText(children) + "]"
    case Braces(children) => "{" + ForestText(children) + "}"
  }

  function ForestText(forest: Forest): string {
    match forest
    case Empty => ""
    case Cons(head, tail) => NodeText(head) + ForestText(tail)
  }

  /** A quoted string on one line, or matched brackets nested at most 64 deep. */
  ghost predicate IsValue(s: string) {
    exists node: Node :: !node.Plain? && NodeFits(node) && Depth(node) <= 64 && NodeText(node) == s
  }

  // ----- the machine -----

  /** Brackets waiting to be closed, innermost last; the open quote, if any; whether a backslash was
      just read inside it. */
  datatype State = Scanning(stack: seq<char>, quote: Option<char>, escaped: bool) | Closed | Failed

  function Outside(stack: seq<char>): State {
    if stack == [] then Closed else Scanning(stack, None, false)
  }

  function Inside(stack: seq<char>, quote: char): State {
    Scanning(stack, Some(quote), false)
  }

  function Step(state: State, c: char): State
    requires state.Scanning? && (state.stack == [] ==> state.quote.Some?)
  {
    if state.quote.Some? then
      if IsLineBreak(c) then Failed
      else if state.escaped then state.(escaped := false)
      else if c == '\\' then state.(escaped := true)
      else if c == state.quote.value then Outside(state.stack)
      else state
    else if IsQuote(c) then Inside(state.stack, c)
    else if IsOpen(c) then
      if |state.stack| >= DEPTH_LIMIT then Failed else Outside(state.stack + [ClosingFor(c)])
    else if IsClose(c) then
      var last := |state.stack| - 1;
      if c != state.stack[last] then Failed else Outside(state.stack[..last])
    else state
  }

  predicate Live(state: State) {
    state.Scanning? && (state.stack == [] ==> state.quote.Some?)
  }

  /** Closed exactly when the value ends with the last character of `s`. */
  function Scan(state: State, s: string): State
    decreases |s|
  {
    if s == [] then state
    else if Live(state) then Scan(Step(state, s[0]), s[1..])
    else Failed
  }

  function Initial(first: char): State {
    if IsQuote(first) then Inside([], first) else Outside([ClosingFor(first)])
  }

  lemma {:induction false} ScanSplits(state: State, s: string, t: string)
    ensures Scan(state, s + t) == if t == [] then Scan(state, s) else Scan(Scan(state, s), t)
    decreases |s|
  {
    if t == [] {
      assert s + t == s;
    } else if s == [] {
      assert s + t == t;
    } else if Live(state) {
      assert (s + t)[1..] == s[1..] + t;
      ScanSplits(Step(state, s[0]), s[1..], t);
    }
  }

  // ----- every value of the grammar is accepted -----

  lemma {:induction false} UnitsScan(stack: seq<char>, quote: char, units: Units, rest: string)
    requires UnitsFit(units, quote)
    ensures Scan(Inside(stack, quote), UnitsText(units) + rest) == Scan(Inside(stack, quote), rest)
  {
    match units
    case NoUnits =>
      assert UnitsText(units) + rest == rest;
    case MoreUnits(head, tail) =>
      UnitsScan(stack, quote, tail, rest);
      var after := UnitsText(tail) + rest;
      if head.Raw? {
        assert UnitsText(units) + rest == [head.c] + after;
      } else {
        assert UnitsText(units) + rest == ['\\'] + ([head.c] + after);
        assert (['\\'] + ([head.c] + after))[1..] == [head.c] + after;
        assert ([head.c] + after)[1..] == after;
      }
  }

  lemma {:induction false} NodeScans(stack: seq<char>, node: Node, rest: string)
    requires NodeFits(node) && |stack| + Depth(node) <= DEPTH_LIMIT
    requires stack == [] ==> !node.Plain?
    ensures var s := NodeText(node) + rest;
      Scan(if stack == [] then Initial(s[0]) else Step(Outside(stack), s[0]), s[1..]) == Scan(Outside(stack), rest)
    decreases node, 1
  {
    var s := NodeText(node) + rest;
    match node
    case Plain(c) =>
      assert s[1..] == rest;
    case Quoted(quote, units) =>
      assert s[1..] == UnitsText(units) + ([quote] + rest);
      UnitsScan(stack, quote, units, [quote] + rest);
    case Brackets(children) =>
      assert s[1..] == ForestText(children) + ([']'] + rest);
      GroupScans(stack, '[', children, rest);
    case Braces(children) =>
      assert s[1..] == ForestText(children) + (['}'] + rest);
      GroupScans(stack, '{', children, rest);
  }

  lemma {:induction false} GroupScans(stack: seq<char>, open: char, children: Forest, rest: string)
    requires IsOpen(open) && ForestFits(children) && |stack| + 1 + ForestDepth(children) <= DEPTH_LIMIT
    ensures Scan(if stack == [] then Initial(open) else Step(Outside(stack), open),
                 ForestText(children) + ([ClosingFor(open)] + rest))
      == Scan(Outside(stack), rest)
    decreases children, 1
  {
    var inner := stack + [ClosingFor(open)];
    assert stack == [] ==> inner == [ClosingFor(open)];
    ForestScans(inner, children, [ClosingFor(open)] + rest);
    ClosingScans(stack, open, rest);
  }

  lemma ClosingScans(stack: seq<char>, open: char, rest: string)
    requires IsOpen(open)
    ensures Scan(Outside(stack + [ClosingFor(open)]), [ClosingFor(open)] + rest) == Scan(Outside(stack), rest)
  {
    var inner := stack + [ClosingFor(open)];
    assert inner[..|stack|] == stack;
    assert ([ClosingFor(open)] + rest)[1..] == rest;
  }

  lemma {:induction false} ForestScans(stack: seq<char>, forest: Forest, rest: string)
    requires stack != [] && ForestFits(forest) && |stack| + ForestDepth(forest) <= DEPTH_LIMIT
    ensures Scan(Outside(stack), ForestText(forest) + rest) == Scan(Outside(stack), rest)
    decreases forest, 0
  {
    match forest
    case Empty =>
      assert ForestText(forest) + rest == rest;
    case Cons(head, tail) =>
      assert ForestText(forest) + rest == NodeText(head) + (ForestText(tail) + rest);
      NodeScans(stack, head, ForestText(tail) + rest);
      ForestScans(stack, tail, rest);
  }

  // ----- everything accepted is a value of the grammar -----

  lemma {:induction false} UnitsParse(stack: seq<char>, quote: char, s: string) returns (units: Units, rest: string)
    requires Scan(Inside(stack, quote), s) == Closed && IsQuote(quote)
    ensures UnitsFit(units, quote) && s == UnitsText(units) + [quote] + rest
    ensures Scan(Outside(stack), rest) == Closed
    decreases |s|
  {
    if s[0] == quote {
      units, rest := NoUnits, s[1..];
    } else if s[0] == '\\' {
      var escaping := Inside(stack, quote).(escaped := true);
      assert Scan(Inside(stack, quote), s) == Scan(escaping, s[1..]) == Scan(Step(escaping, s[1]), s[1..][1..]);
      assert s[1..][1..] == s[2..] && !IsLineBreak(s[1]);
      units, rest := UnitsParse(stack, quote, s[2..]);
      units := MoreUnits(Escaped(s[1]), units);
    } else {
      units, rest := UnitsParse(stack, quote, s[1..]);
      units := MoreUnits(Raw(s[0]), units);
    }
  }

  lemma {:induction false} NodeParse(stack: seq<char>, s: string) returns (node: Node, rest: string)
    requires stack != [] && |stack| <= DEPTH_LIMIT && Scan(Outside(stack), s) == Closed && !IsClose(s[0])
    ensures NodeFits(node) && |stack| + Depth(node) <= DEPTH_LIMIT
    ensures s == NodeText(node) + rest && |rest| < |s|
    ensures Scan(Outside(stack), rest) == Closed
    decreases |s|, 0
  {
    assert Scan(Outside(stack), s) == Scan(Step(Outside(stack), s[0]), s[1..]);
    if IsQuote(s[0]) {
      var units;
      units, rest := UnitsParse(stack, s[0], s[1..]);
      node := Quoted(s[0], units);
    } else if IsOpen(s[0]) {
      var inner, children := stack + [ClosingFor(s[0])], Empty;
      children, rest := ForestParse(inner, s[1..]);
      assert inner[..|stack|] == stack;
      node := if s[0] == '[' then Brackets(children) else Braces(children);
    } else {
      node, rest := Plain(s[0]), s[1..];
    }
  }

  lemma {:induction false} ForestParse(stack: seq<char>, s: string) returns (forest: Forest, rest: string)
    requires stack != [] && |stack| <= DEPTH_LIMIT && Scan(Outside(stack), s) == Closed
    ensures ForestFits(forest) && |stack| + ForestDepth(forest) <= DEPTH_LIMIT
    ensures s == ForestText(forest) + [stack[|stack| - 1]] + rest
    ensures Scan(Outside(stack[..|stack| - 1]), rest) == Closed
    decreases |s|, 1
  {
    if IsClose(s[0]) {
      forest, rest := Empty, s[1..];
    } else {
      var head, after := NodeParse(stack, s);
      var tail;
      tail, rest := ForestParse(stack, after);
      forest := Cons(head, tail);
      var last := [stack[|stack| - 1]];
      assert NodeText(head) + (ForestText(tail) + last + rest) == ForestText(forest) + last + rest;
    }
  }

  /** The machine accepts a text exactly when it is a value of the grammar. */
  lemma ScanRecognises(s: string)
    requires s != [] && (IsQuote(s[0]) || IsOpen(s[0]))
    ensures Scan(Initial(s[0]), s[1..]) == Closed <==> IsValue(s)
  {
    if Scan(Initial(s[0]), s[1..]) == Closed {
      if IsQuote(s[0]) {
        var units, rest := UnitsParse([], s[0], s[1..]);
        assert NodeText(Quoted(s[0], units)) == s;
      } else {
        var forest, rest := ForestParse([ClosingFor(s[0])], s[1..]);
        assert NodeText(if s[0] == '[' then Brackets(forest) else Braces(forest)) == s;
      }
    }
    if IsValue(s) {
      var node: Node :| !node.Plain? && NodeFits(node) && Depth(node) <= 64 && NodeText(node) == s;
      assert NodeText(node) + [] == s;
      NodeScans([], node, []);
    }
  }

  /** No value is a proper prefix of another one. */
  lemma ValuesArePrefixFree(s: string, t: string)
    requires IsValue(s) && IsValue(s + t)
    ensures t == []
  {
    ValueStarts(s);
    ScanRecognises(s);
    ScanRecognises(s + t);
    assert (s + t)[1..] == s[1..] + t;
    ScanSplits(Initial(s[0]), s[1..], t);
  }

  lemma ValueStarts(s: string)
    requires IsValue(s)
    ensures s != [] && (IsQuote(s[0]) || IsOpen(s[0]))
  {
    var node: Node :| !node.Plain? && NodeFits(node) && Depth(node) <= 64 && NodeText(node) == s;
  }
}
