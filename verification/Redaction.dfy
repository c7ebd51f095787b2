/** Removing the values of sensitive mapping keys from a text (app/error_reporting.py:40-154). */
module Redaction {
  import opened Outcomes
  import opened StructuredText

  const SCAN_LIMIT := 32768
  const MARKER := "[REDACTED]"

  predicate IsBlank(c: char) {
    c == ' ' || c == '\t' || IsLineBreak(c)
  }

  predicate IsDelimiter(c: char) {
    c == ',' || IsClose(c)
  }

  lemma BlanksAndDelimiters(c: char)
    ensures IsBlank(c) <==> c in " \t\r\n"
    ensures IsDelimiter(c) <==> c in ",}]"
  {
  }

  // ----- where the value of a key starts -----

  datatype ValueStart = Assignment | NoSeparator | ValueAt(start: nat)

  predicate Blank(text: string, from: nat, to: nat) {
    from <= to <= |text| && forall i :: from <= i < to ==> IsBlank(text[i])
  }

  /** The first character after the key that is not blank is `c`, at p within the window. */
  predicate SeparatorAt(text: string, keyEnd: nat, scanEnd: nat, p: nat, c: char) {
    keyEnd <= p < scanEnd <= |text| && Blank(text, keyEnd, p) && text[p] == c
  }

  ghost predicate Assigned(text: string, keyEnd: nat, scanEnd: nat) {
    exists p :: SeparatorAt(text, keyEnd, scanEnd, p, '=')
  }

  /** The value of a mapping key starts after the colon and the blanks that follow it. */
  ghost predicate ValueStartsAt(text: string, keyEnd: nat, scanEnd: nat, start: nat) {
    && (exists p: nat :: SeparatorAt(text, keyEnd, scanEnd, p, ':') && p < start && Blank(text, p + 1, start))
    && start <= scanEnd && (start < scanEnd ==> !IsBlank(text[start]))
  }

  ghost predicate Unseparated(text: string, keyEnd: nat, scanEnd: nat) {
    forall p :: !SeparatorAt(text, keyEnd, scanEnd, p, '=') && !SeparatorAt(text, keyEnd, scanEnd, p, ':')
  }

  method MappingValueStart(text: string, keyEnd: nat, scanEnd: nat) returns (r: ValueStart)
    requires scanEnd <= |text|
    ensures r.Assignment? <==> Assigned(text, keyEnd, scanEnd)
    ensures r.NoSeparator? <==> Unseparated(text, keyEnd, scanEnd)
    ensures r.ValueAt? ==> ValueStartsAt(text, keyEnd, scanEnd, r.start)
  {
    var position := keyEnd;
    while position < scanEnd && IsBlank(text[position])
      invariant keyEnd <= position && (position > keyEnd ==> position <= scanEnd)
      invariant forall i :: keyEnd <= i < position ==> IsBlank(text[i])
    {
      position := position + 1;
    }
    forall p: nat, c | SeparatorAt(text, keyEnd, scanEnd, p, c) && !IsBlank(c)
      ensures p == position
    {
    }
    if position < scanEnd && text[position] == '=' {
      assert SeparatorAt(text, keyEnd, scanEnd, position, '=');
      return Assignment;
    }
    if position >= scanEnd || text[position] != ':' {
      return NoSeparator;
    }
    ghost var colon := position;
    assert SeparatorAt(text, keyEnd, scanEnd, colon, ':');
    position := position + 1;
    while position < scanEnd && IsBlank(text[position])
      invariant colon < position <= scanEnd
      invariant forall i :: colon < i < position ==> IsBlank(text[i])
    {
      position := position + 1;
    }
    return ValueAt(position);
  }

  // ----- where it ends -----

  /** The next delimiter is at p, and no line breaks off what stands before it. */
  predicate DelimiterReached(text: string, start: nat, end: nat, p: nat) {
    && start <= p < end <= |text| && IsDelimiter(text[p])
    && (forall i :: start <= i < p ==> !IsDelimiter(text[i]))
    && (forall i, j :: start <= i < j < p && !IsBlank(text[i]) ==> !IsLineBreak(text[j]))
  }

  ghost predicate TrailingEnd(text: string, start: nat, end: nat, p: nat) {
    || DelimiterReached(text, start, end, p)
    || (p == |text| && forall q :: !DelimiterReached(text, start, end, q))
  }

  method ConsumeTrailingFragment(text: string, start: nat, end: nat) returns (p: nat)
    requires start <= end <= |text|
    ensures TrailingEnd(text, start, end, p)
  {
    var position := start;
    while position < end
      invariant start <= position <= end
      invariant forall i :: start <= i < position ==> IsBlank(text[i])
    {
      if IsDelimiter(text[position]) {
        return position;
      }
      if IsBlank(text[position]) {
        position := position + 1;
        continue;
      }
      ghost var first := position;
      while position < end && !IsDelimiter(text[position]) && !IsLineBreak(text[position])
        invariant first <= position <= end
        invariant position == first ==> !IsDelimiter(text[first]) && !IsLineBreak(text[first])
        invariant forall i :: start <= i < position ==> !IsDelimiter(text[i])
        invariant forall j :: first <= j < position ==> !IsLineBreak(text[j])
      {
        position := position + 1;
      }
      if position < end && IsDelimiter(text[position]) {
        return position;
      }
      assert position < end ==> first < position && IsLineBreak(text[position]);
      return |text|;
    }
    return |text|;
  }

  predicate IsStructured(c: char) { IsQuote(c) || IsOpen(c) }

  /** A value of the grammar stands at `start` and ends before n, inside the window. */
  ghost predicate ValueEndsBefore(text: string, start: nat, scanEnd: nat, n: nat) {
    start < n <= scanEnd <= |text| && IsValue(text[start..n])
  }

  /** Up to where a value is removed: a value of the grammar with what trails it, or all that is
      left of the text if there is none; a bare value ends at the next delimiter. */
  ghost predicate IsValueEnd(text: string, start: nat, scanEnd: nat, e: nat)
    requires scanEnd <= |text|
  {
    if start >= scanEnd then e == |text|
    else if IsStructured(text[start]) then
      || (exists n :: ValueEndsBefore(text, start, scanEnd, n) && TrailingEnd(text, n, scanEnd, e))
      || (e == |text| && forall n :: !ValueEndsBefore(text, start, scanEnd, n))
    else
      && start <= e <= |text|
      && (forall i :: start <= i < e && i < scanEnd ==> !IsDelimiter(text[i]))
      && (e < |text| ==> e < scanEnd && IsDelimiter(text[e]))
  }

  lemma TrailingEndIsOne(text: string, start: nat, end: nat, p: nat, q: nat)
    requires TrailingEnd(text, start, end, p) && TrailingEnd(text, start, end, q)
    ensures p == q
  {
  }

  /** The scan limit, the depth limit, unmatched brackets and broken lines leave no choice. */
  lemma ValueEndIsOne(text: string, start: nat, scanEnd: nat, d: nat, e: nat)
    requires scanEnd <= |text| && IsValueEnd(text, start, scanEnd, d) && IsValueEnd(text, start, scanEnd, e)
    ensures d == e
  {
    if start < scanEnd && IsStructured(text[start]) {
      if m: nat :| ValueEndsBefore(text, start, scanEnd, m) && TrailingEnd(text, m, scanEnd, d) {
        if n: nat :| ValueEndsBefore(text, start, scanEnd, n) && TrailingEnd(text, n, scanEnd, e) {
          ValueEndsOnce(text, start, scanEnd, m, n);
          TrailingEndIsOne(text, m, scanEnd, d, e);
        }
      }
    }
  }

  lemma ValueEndsOnce(text: string, start: nat, scanEnd: nat, m: nat, n: nat)
    requires ValueEndsBefore(text, start, scanEnd, m) && ValueEndsBefore(text, start, scanEnd, n)
    ensures m == n
  {
    if m < n {
      assert text[start..n] == text[start..m] + text[m..n];
      ValuesArePrefixFree(text[start..m], text[m..n]);
    } else {
      assert text[start..m] == text[start..n] + text[n..m];
      ValuesArePrefixFree(text[start..n], text[n..m]);
    }
  }

  /** A value of the grammar goes as a whole. */
  lemma WholeValueGoes(text: string, start: nat, scanEnd: nat, n: nat, e: nat)
    requires ValueEndsBefore(text, start, scanEnd, n) && IsValueEnd(text, start, scanEnd, e)
    ensures n <= e
  {
    ValueStarts(text[start..n]);
    if m: nat :| ValueEndsBefore(text, start, scanEnd, m) && TrailingEnd(text, m, scanEnd, e) {
      ValueEndsOnce(text, start, scanEnd, m, n);
    }
  }

  /** Never before the start, and never at a character other than a delimiter inside the text. */
  lemma ValueEndIsDelimiter(text: string, start: nat, scanEnd: nat, e: nat)
    requires start <= scanEnd <= |text| && IsValueEnd(text, start, scanEnd, e)
    ensures e == |text| || (start <= e < scanEnd && IsDelimiter(text[e]))
  {
  }

  // ----- the scanner against the grammar -----

  /** What the machine knows when it has read the value up to `position`. */
  function Progress(text: string, start: nat, position: nat): State
    requires start < position <= |text|
  {
    Scan(Initial(text[start]), text[start + 1..position])
  }

  lemma ProgressSteps(text: string, start: nat, position: nat)
    requires start < position < |text| && Live(Progress(text, start, position))
    ensures Progress(text, start, position + 1) == Step(Progress(text, start, position), text[position])
  {
    var before, c := text[start + 1..position], text[position];
    assert text[start + 1..position + 1] == before + [c];
    ScanSplits(Initial(text[start]), before, [c]);
    assert [c][1..] == [];
  }

  /** A value ends where the machine closes. */
  lemma ValueEndsWhereClosed(text: string, start: nat, scanEnd: nat, n: nat)
    requires start < n <= scanEnd <= |text| && IsStructured(text[start])
    ensures ValueEndsBefore(text, start, scanEnd, n) <==> Progress(text, start, n) == Closed
  {
    var s := text[start..n];
    assert s[1..] == text[start + 1..n];
    ScanRecognises(s);
  }

  /** No value can end if the machine still runs at the end of the window, or stops on a failure. */
  lemma NoValueEnds(text: string, start: nat, scanEnd: nat, position: nat)
    requires start < position <= scanEnd <= |text| && IsStructured(text[start])
    requires Live(Progress(text, start, position))
    requires position < scanEnd ==> Step(Progress(text, start, position), text[position]) == Failed
    ensures forall n :: !ValueEndsBefore(text, start, scanEnd, n)
  {
    forall n: nat | ValueEndsBefore(text, start, scanEnd, n)
      ensures false
    {
      ValueEndsWhereClosed(text, start, scanEnd, n);
      if n < position {
        assert text[start + 1..position] == text[start + 1..n] + text[n..position];
        ScanSplits(Initial(text[start]), text[start + 1..n], text[n..position]);
      } else if position < n {
        ProgressSteps(text, start, position);
        assert text[start + 1..n] == text[start + 1..position + 1] + text[position + 1..n];
        ScanSplits(Initial(text[start]), text[start + 1..position + 1], text[position + 1..n]);
      }
    }
  }

  method StructuredValueEnd(text: string, start: nat, scanEnd: nat) returns (e: nat)
    requires scanEnd <= |text|
    ensures IsValueEnd(text, start, scanEnd, e)
  {
    if start >= scanEnd {
      return |text|;
    }
    var first := text[start];
    if IsOpen(first) {
      e := BracketedValueEnd(text, start, scanEnd);
      return;
    }
    if IsQuote(first) {
      e := QuotedValueEnd(text, start, scanEnd);
      return;
    }
    var position := start;
    while position < scanEnd && !IsDelimiter(text[position])
      invariant start <= position <= scanEnd
      invariant forall i :: start <= i < position ==> !IsDelimiter(text[i])
    {
      position := position + 1;
    }
    return if position < scanEnd then position else |text|;
  }

  method BracketedValueEnd(text: string, start: nat, scanEnd: nat) returns (e: nat)
    requires start < scanEnd <= |text| && IsOpen(text[start])
    ensures IsValueEnd(text, start, scanEnd, e)
  {
    var stack := [ClosingFor(text[start])];
    var quote: Option<char> := None;
    var escaped := false;
    var position := start + 1;
    while position < scanEnd
      invariant start < position <= scanEnd
      invariant stack != [] && (quote.None? ==> !escaped)
      invariant Progress(text, start, position) == Scanning(stack, quote, escaped)
    {
      var character := text[position];
      ProgressSteps(text, start, position);
      if quote.Some? {
        if IsLineBreak(character) {
          NoValueEnds(text, start, scanEnd, position);
          return |text|;
        }
        if escaped {
          escaped := false;
        } else if character == '\\' {
          escaped := true;
        } else if character == quote.value {
          quote := None;
        }
      } else if IsQuote(character) {
        quote := Some(character);
      } else if IsOpen(character) {
        if |stack| >= DEPTH_LIMIT {
          NoValueEnds(text, start, scanEnd, position);
          return |text|;
        }
        stack := stack + [ClosingFor(character)];
      } else if IsClose(character) {
        if character != stack[|stack| - 1] {
          NoValueEnds(text, start, scanEnd, position);
          return |text|;
        }
        stack := stack[..|stack| - 1];
        if stack == [] {
          ValueEndsWhereClosed(text, start, scanEnd, position + 1);
          e := ConsumeTrailingFragment(text, position + 1, scanEnd);
          return;
        }
      }
      position := position + 1;
    }
    NoValueEnds(text, start, scanEnd, position);
    return |text|;
  }

  method QuotedValueEnd(text: string, start: nat, scanEnd: nat) returns (e: nat)
    requires start < scanEnd <= |text| && IsQuote(text[start])
    ensures IsValueEnd(text, start, scanEnd, e)
  {
    var quote := text[start];
    var escaped := false;
    var position := start + 1;
    while position < scanEnd
      invariant start < position <= scanEnd
      invariant Progress(text, start, position) == Scanning([], Some(quote), escaped)
    {
      var character := text[position];
      ProgressSteps(text, start, position);
      if IsLineBreak(character) {
        NoValueEnds(text, start, scanEnd, position);
        return |text|;
      }
      if escaped {
        escaped := false;
      } else if character == '\\' {
        escaped := true;
      } else if character == quote {
        ValueEndsWhereClosed(text, start, scanEnd, position + 1);
        e := ConsumeTrailingFragment(text, position + 1, scanEnd);
        return;
      }
      position := position + 1;
    }
    NoValueEnds(text, start, scanEnd, position);
    return |text|;
  }

  // ----- the rewriting loop -----

  /** Where the key pattern matches: ends[i] is the end of its match at i, if there is one. */
  type Keys = seq<Option<nat>>

  /** A match has at least one character and starts with a quote, a letter or a digit. */
  predicate KeysFit(text: string, keys: Keys) {
    && |keys| == |text|
    && forall i :: 0 <= i < |keys| && keys[i].Some? ==>
      i < keys[i].value <= |text| && !IsBlank(text[i]) && text[i] != ':'
  }

  /** The first match at or after a position. */
  method Search(keys: Keys, from: nat) returns (found: Option<nat>)
    ensures found.Some? ==> from <= found.value < |keys| && keys[found.value].Some?
    ensures forall i :: from <= i < (if found.Some? then found.value else |keys|) ==> keys[i].None?
  {
    var i := from;
    while i < |keys|
      invariant from <= i
      invariant forall j :: from <= j < i && j < |keys| ==> keys[j].None?
    {
      if keys[i].Some? {
        return Some(i);
      }
      i := i + 1;
    }
    return None;
  }

  datatype Cut = Cut(from: nat, to: nat)

  function WindowEnd(text: string, key: nat): (end: nat)
    ensures end <= |text| && end <= key + 32768 && (end < |text| ==> end == key + 32768)
  {
    if |text| <= key + SCAN_LIMIT then |text| else key + SCAN_LIMIT
  }

  /** What is cut out for the key at `key`: its whole value, or all that follows a key without separator. */
  ghost predicate CutFor(text: string, keys: Keys, key: nat, cut: Cut)
    requires KeysFit(text, keys) && key < |keys| && keys[key].Some?
  {
    var keyEnd, scanEnd := keys[key].value, WindowEnd(text, key);
    || (ValueStartsAt(text, keyEnd, scanEnd, cut.from) && IsValueEnd(text, cut.from, scanEnd, cut.to))
    || (Unseparated(text, keyEnd, scanEnd) && cut == Cut(keyEnd, |text|))
  }

  /** The key is one of an assignment, which another pattern takes care of, or its cut is made. */
  ghost predicate Processed(text: string, keys: Keys, cuts: seq<Cut>, key: nat)
    requires KeysFit(text, keys)
  {
    && key < |keys| && keys[key].Some?
    && (Assigned(text, keys[key].value, WindowEnd(text, key))
        || exists cut :: cut in cuts && CutFor(text, keys, key, cut))
  }

  /** Nothing escapes: the key is processed, or removed, or starts inside a key that is processed. */
  ghost predicate Covered(text: string, keys: Keys, cuts: seq<Cut>, key: nat)
    requires KeysFit(text, keys)
  {
    || Processed(text, keys, cuts, key)
    || (exists cut :: cut in cuts && cut.from <= key < cut.to)
    || (exists other: nat :: other < key && Processed(text, keys, cuts, other) && key < keys[other].value)
  }

  /** The cuts leave no choice: where the value starts and where it ends is determined. */
  lemma CutIsOne(text: string, keys: Keys, key: nat, c: Cut, d: Cut)
    requires KeysFit(text, keys) && key < |keys| && keys[key].Some?
    requires CutFor(text, keys, key, c) && CutFor(text, keys, key, d)
    ensures c == d && !Assigned(text, keys[key].value, WindowEnd(text, key))
  {
    var keyEnd, scanEnd := keys[key].value, WindowEnd(text, key);
    if ValueStartsAt(text, keyEnd, scanEnd, c.from) && ValueStartsAt(text, keyEnd, scanEnd, d.from) {
      ValueStartIsOne(text, keyEnd, scanEnd, c.from, d.from);
      ValueEndIsOne(text, c.from, scanEnd, c.to, d.to);
    }
  }

  lemma SeparatorIsOne(text: string, keyEnd: nat, scanEnd: nat, p: nat, c: char, q: nat, d: char)
    requires SeparatorAt(text, keyEnd, scanEnd, p, c) && SeparatorAt(text, keyEnd, scanEnd, q, d)
    requires !IsBlank(c) && !IsBlank(d)
    ensures p == q && c == d
  {
  }

  lemma ValueStartIsOne(text: string, keyEnd: nat, scanEnd: nat, c: nat, d: nat)
    requires ValueStartsAt(text, keyEnd, scanEnd, c) && ValueStartsAt(text, keyEnd, scanEnd, d)
    ensures c == d && !Assigned(text, keyEnd, scanEnd)
  {
    var p: nat :| SeparatorAt(text, keyEnd, scanEnd, p, ':') && p < c && Blank(text, p + 1, c);
    var q: nat :| SeparatorAt(text, keyEnd, scanEnd, q, ':') && q < d && Blank(text, q + 1, d);
    SeparatorIsOne(text, keyEnd, scanEnd, p, ':', q, ':');
    if r: nat :| SeparatorAt(text, keyEnd, scanEnd, r, '=') {
      SeparatorIsOne(text, keyEnd, scanEnd, p, ':', r, '=');
    }
  }

  /** Where the cut before the i-th one ends. */
  function Before(cuts: seq<Cut>, i: nat): nat
    requires i <= |cuts|
  {
    if i == 0 then 0 else cuts[i - 1].to
  }

  /** Ascending, disjoint and inside the text. */
  predicate Ordered(text: string, cuts: seq<Cut>) {
    forall i :: 0 <= i < |cuts| ==> Before(cuts, i) <= cuts[i].from <= cuts[i].to <= |text|
  }

  /** The text up to the end of the last cut, each cut replaced by the marker. */
  function Rendered(text: string, cuts: seq<Cut>): string
    requires Ordered(text, cuts)
    decreases |cuts|
  {
    if cuts == [] then ""
    else
      var last := |cuts| - 1;
      assert Ordered(text, cuts[..last]) by {
        assert forall i :: 0 <= i < last ==> Before(cuts[..last], i) == Before(cuts, i);
      }
      Rendered(text, cuts[..last]) + text[Before(cuts, last)..cuts[last].from] + MARKER
  }

  function Redacted(text: string, cuts: seq<Cut>): string
    requires Ordered(text, cuts)
  {
    Rendered(text, cuts) + text[Before(cuts, |cuts|)..]
  }

  predicate Kept(cuts: seq<Cut>, i: int) {
    forall j :: 0 <= j < |cuts| ==> !(cuts[j].from <= i < cuts[j].to)
  }

  /** What stands inside the cuts does not matter for the result. */
  lemma CutsHideTheirText(text: string, other: string, cuts: seq<Cut>)
    requires Ordered(text, cuts) && |other| == |text|
    requires forall i :: 0 <= i < |text| && Kept(cuts, i) ==> other[i] == text[i]
    ensures Ordered(other, cuts) && Redacted(other, cuts) == Redacted(text, cuts)
  {
    forall n, i | 0 <= n <= |cuts| && InGap(text, cuts, n, i)
      ensures other[i] == text[i]
    {
      GapIsKept(text, cuts, n, i);
    }
    RenderedHides(text, other, cuts);
    var from := Before(cuts, |cuts|);
    forall i | from <= i < |text|
      ensures other[i] == text[i]
    {
      assert InGap(text, cuts, |cuts|, i);
    }
    assert text[from..] == other[from..];
  }

  // ----- what stands outside the cuts survives -----

  lemma OrderedShorter(text: string, cuts: seq<Cut>, n: nat)
    requires Ordered(text, cuts) && n <= |cuts|
    ensures Ordered(text, cuts[..n]) && forall i :: 0 <= i <= n ==> Before(cuts[..n], i) == Before(cuts, i)
  {
    forall i | 0 <= i <= n
      ensures Before(cuts[..n], i) == Before(cuts, i)
    {
    }
  }

  /** The characters in the gaps before the last cut. */
  function GapTotal(cuts: seq<Cut>): int
    decreases |cuts|
  {
    if cuts == [] then 0
    else
      var last := |cuts| - 1;
      GapTotal(cuts[..last]) + cuts[last].from - Before(cuts, last)
  }

  lemma RenderedStep(text: string, cuts: seq<Cut>)
    requires Ordered(text, cuts) && cuts != []
    ensures var last := |cuts| - 1;
      && Ordered(text, cuts[..last]) && Before(cuts[..last], last) == Before(cuts, last)
      && Rendered(text, cuts) == Rendered(text, cuts[..last]) + text[Before(cuts, last)..cuts[last].from] + MARKER
  {
    OrderedShorter(text, cuts, |cuts| - 1);
  }

  lemma {:induction false} RenderedLength(text: string, cuts: seq<Cut>)
    requires Ordered(text, cuts)
    ensures |Rendered(text, cuts)| == GapTotal(cuts) + 10 * |cuts|
    decreases |cuts|
  {
    if cuts != [] {
      RenderedStep(text, cuts);
      RenderedLength(text, cuts[..|cuts| - 1]);
    }
  }

  /** Where a character of the n-th gap stands in the output. */
  function Position(cuts: seq<Cut>, n: nat, i: int): int
    requires n <= |cuts|
  {
    GapTotal(cuts[..n]) + 10 * n + i - Before(cuts, n)
  }

  lemma PositionOfShorter(text: string, cuts: seq<Cut>, m: nat, n: nat, i: int)
    requires Ordered(text, cuts) && n <= m <= |cuts|
    ensures Position(cuts[..m], n, i) == Position(cuts, n, i)
  {
    OrderedShorter(text, cuts, m);
    assert cuts[..m][..n] == cuts[..n];
  }

  /** The character of the n-th gap stands where it should. */
  predicate StandsAt(rendered: string, text: string, p: int, i: int) {
    0 <= p < |rendered| && 0 <= i < |text| && rendered[p] == text[i]
  }

  lemma {:induction false} RenderedAt(text: string, cuts: seq<Cut>, n: nat, i: int)
    requires Ordered(text, cuts) && n < |cuts| && InGap(text, cuts, n, i)
    ensures StandsAt(Rendered(text, cuts), text, Position(cuts, n, i), i)
    decreases |cuts|
  {
    var last := |cuts| - 1;
    RenderedStep(text, cuts);
    if n < last {
      GapOfShorter(text, cuts, last, n, i);
      RenderedAt(text, cuts[..last], n, i);
      PositionOfShorter(text, cuts, last, n, i);
      StandsInFront(Rendered(text, cuts[..last]), text[Before(cuts, last)..cuts[last].from], text, Position(cuts, n, i), i);
    } else {
      RenderedLength(text, cuts[..last]);
      StandsInGap(Rendered(text, cuts[..last]), text, Before(cuts, last), cuts[last].from, i);
    }
  }

  lemma StandsInFront(front: string, gap: string, text: string, p: int, i: int)
    requires StandsAt(front, text, p, i)
    ensures StandsAt(front + gap + MARKER, text, p, i)
  {
  }

  lemma StandsInGap(front: string, text: string, from: nat, upTo: nat, i: int)
    requires from <= i < upTo <= |text|
    ensures StandsAt(front + text[from..upTo] + MARKER, text, |front| + i - from, i)
  {
  }

  lemma GapOfShorter(text: string, cuts: seq<Cut>, m: nat, n: nat, i: int)
    requires Ordered(text, cuts) && n < m <= |cuts|
    ensures Ordered(text, cuts[..m]) && (InGap(text, cuts[..m], n, i) <==> InGap(text, cuts, n, i))
  {
    OrderedShorter(text, cuts, m);
  }

  /** Every character of a gap stands in the output, at a place that depends on the cuts alone. */
  lemma RedactedAt(text: string, cuts: seq<Cut>, n: nat, i: int)
    requires Ordered(text, cuts) && n <= |cuts| && InGap(text, cuts, n, i)
    ensures 0 <= i < |text| && 0 <= Position(cuts, n, i) < |Redacted(text, cuts)|
    ensures Redacted(text, cuts)[Position(cuts, n, i)] == text[i]
  {
    RenderedLength(text, cuts);
    if n < |cuts| {
      RenderedAt(text, cuts, n, i);
    } else {
      assert cuts[..n] == cuts;
    }
  }

  lemma {:induction false} KeptIsInGap(text: string, cuts: seq<Cut>, i: nat) returns (n: nat)
    requires Ordered(text, cuts) && i < |text| && Kept(cuts, i)
    ensures n <= |cuts| && InGap(text, cuts, n, i)
    decreases |cuts|
  {
    n := |cuts|;
    if i < Before(cuts, n) {
      var last := |cuts| - 1;
      n := last;
      if i < Before(cuts, last) {
        KeptInShorter(text, cuts, last, i);
        n := KeptIsInGap(text, cuts[..last], i);
        InnerGap(text, cuts, last, n, i);
      }
    }
  }

  lemma KeptInShorter(text: string, cuts: seq<Cut>, m: nat, i: nat)
    requires Ordered(text, cuts) && m <= |cuts| && Kept(cuts, i)
    ensures Ordered(text, cuts[..m]) && Kept(cuts[..m], i)
  {
    OrderedShorter(text, cuts, m);
    assert forall j :: 0 <= j < m ==> cuts[..m][j] == cuts[j];
  }

  lemma InnerGap(text: string, cuts: seq<Cut>, m: nat, n: nat, i: nat)
    requires Ordered(text, cuts) && n <= m <= |cuts| && InGap(text, cuts[..m], n, i) && i < Before(cuts, m)
    ensures InGap(text, cuts, n, i)
  {
    OrderedShorter(text, cuts, m);
  }

  /** The output tells every kept character: two texts of one length with the same output under the same
      cuts agree wherever nothing is cut. */
  lemma CutsKeepTheRest(text: string, other: string, cuts: seq<Cut>, i: nat)
    requires Ordered(text, cuts) && Ordered(other, cuts) && |other| == |text|
    requires Redacted(other, cuts) == Redacted(text, cuts)
    requires i < |text| && Kept(cuts, i)
    ensures other[i] == text[i]
  {
    var n := KeptIsInGap(text, cuts, i);
    RedactedAt(text, cuts, n, i);
    RedactedAt(other, cuts, n, i);
  }

  /** Kept characters stand in the output in their order. */
  lemma KeptStaysInOrder(text: string, cuts: seq<Cut>, i: nat, j: nat) returns (p: nat, q: nat)
    requires Ordered(text, cuts) && i < j < |text| && Kept(cuts, i) && Kept(cuts, j)
    ensures p < q < |Redacted(text, cuts)| && Redacted(text, cuts)[p] == text[i] && Redacted(text, cuts)[q] == text[j]
  {
    var m := KeptIsInGap(text, cuts, i);
    var n := KeptIsInGap(text, cuts, j);
    RedactedAt(text, cuts, m, i);
    RedactedAt(text, cuts, n, j);
    p, q := Position(cuts, m, i), Position(cuts, n, j);
    GapsAscend(text, cuts, m, n, i, j);
  }

  lemma GapsAscend(text: string, cuts: seq<Cut>, m: nat, n: nat, i: int, j: int)
    requires Ordered(text, cuts) && m <= |cuts| && n <= |cuts| && InGap(text, cuts, m, i) && InGap(text, cuts, n, j)
    requires i < j
    ensures m <= n && Position(cuts, m, i) < Position(cuts, n, j)
  {
    if n < m {
      OrderedFar(text, cuts, n, m);
    } else if m < n {
      GapTotalGrows(text, cuts, m, n);
    }
  }

  lemma {:induction false} GapTotalGrows(text: string, cuts: seq<Cut>, m: nat, n: nat)
    requires Ordered(text, cuts) && m < n <= |cuts|
    ensures GapTotal(cuts[..n]) >= GapTotal(cuts[..m]) + cuts[m].from - Before(cuts, m)
    decreases n
  {
    OrderedShorter(text, cuts, n);
    assert cuts[..n][..n - 1] == cuts[..n - 1];
    if m < n - 1 {
      GapTotalGrows(text, cuts, m, n - 1);
    }
  }

  // ----- how long the output is -----

  /** The kept positions before `end`. */
  function KeptUpTo(cuts: seq<Cut>, end: nat): set<nat> {
    set i: nat | i < end && Kept(cuts, i)
  }

  function Span(lo: nat, hi: nat): set<nat> {
    set i: nat {:trigger InSpan(lo, hi, i)} | i < hi && InSpan(lo, hi, i)
  }

  predicate InSpan(lo: nat, hi: nat, i: nat) { lo <= i < hi }

  lemma {:induction false} SpanSize(lo: nat, hi: nat)
    requires lo <= hi
    ensures |Span(lo, hi)| == hi - lo
    decreases hi
  {
    if lo < hi {
      var last: nat := hi - 1;
      SpanSize(lo, last);
      assert InSpan(lo, hi, last);
      assert forall i: nat :: InSpan(lo, hi, i) <==> InSpan(lo, last, i) || i == last;
      assert Span(lo, hi) == Span(lo, last) + {last};
    }
  }

  lemma {:induction false} KeptBeforeCuts(text: string, cuts: seq<Cut>)
    requires Ordered(text, cuts)
    ensures |KeptUpTo(cuts, Before(cuts, |cuts|))| == GapTotal(cuts)
    decreases |cuts|
  {
    if cuts == [] {
      assert KeptUpTo(cuts, 0) == {};
    } else {
      var last := |cuts| - 1;
      OrderedShorter(text, cuts, last);
      KeptBeforeCuts(text, cuts[..last]);
      assert |cuts[..last]| == last && Before(cuts[..last], last) == Before(cuts, last);
      KeptWithOneMore(text, cuts, GapTotal(cuts[..last]));
      GapTotalStep(cuts);
    }
  }

  lemma GapTotalStep(cuts: seq<Cut>)
    requires cuts != []
    ensures var last := |cuts| - 1;
      GapTotal(cuts) == GapTotal(cuts[..last]) + cuts[last].from - Before(cuts, last)
  {
  }

  lemma KeptWithOneMore(text: string, cuts: seq<Cut>, total: int)
    requires Ordered(text, cuts) && cuts != []
    requires |KeptUpTo(cuts[..|cuts| - 1], Before(cuts, |cuts| - 1))| == total
    ensures var last := |cuts| - 1;
      |KeptUpTo(cuts, cuts[last].to)| == total + cuts[last].from - Before(cuts, last)
  {
    var last := |cuts| - 1;
    KeptSplits(text, cuts);
    SpanSize(Before(cuts, last), cuts[last].from);
    DisjointSize(KeptUpTo(cuts[..last], Before(cuts, last)), Span(Before(cuts, last), cuts[last].from));
  }

  lemma DisjointSize(a: set<nat>, b: set<nat>)
    requires a !! b
    ensures |a + b| == |a| + |b|
  {
  }

  /** The kept positions before the end of the last cut: those before the gap, and the gap. */
  lemma KeptSplits(text: string, cuts: seq<Cut>)
    requires Ordered(text, cuts) && cuts != []
    ensures var last := |cuts| - 1;
      var before, gap := KeptUpTo(cuts[..last], Before(cuts, last)), Span(Before(cuts, last), cuts[last].from);
      KeptUpTo(cuts, cuts[last].to) == before + gap && before !! gap
  {
    var last := |cuts| - 1;
    var from := Before(cuts, last);
    forall i: nat
      ensures i in KeptUpTo(cuts, cuts[last].to) <==> i in KeptUpTo(cuts[..last], from) || InSpan(from, cuts[last].from, i)
    {
      if i < cuts[last].to {
        KeptWithLast(text, cuts, i);
      }
    }
    forall i: nat | i in KeptUpTo(cuts[..last], from)
      ensures i !in Span(from, cuts[last].from)
    {
    }
  }

  lemma KeptWithLast(text: string, cuts: seq<Cut>, i: nat)
    requires Ordered(text, cuts) && cuts != [] && i < cuts[|cuts| - 1].to
    ensures var last := |cuts| - 1;
      Kept(cuts, i) <==> (i < Before(cuts, last) && Kept(cuts[..last], i)) || Before(cuts, last) <= i < cuts[last].from
  {
    var last := |cuts| - 1;
    if Before(cuts, last) <= i < cuts[last].from {
      GapIsKept(text, cuts, last, i);
    }
    assert forall j :: 0 <= j < last ==> cuts[..last][j] == cuts[j];
  }

  /** The length of the output: the kept characters, and ten for every cut. */
  lemma RedactedLength(text: string, cuts: seq<Cut>)
    requires Ordered(text, cuts)
    ensures |Redacted(text, cuts)| == |KeptUpTo(cuts, |text|)| + 10 * |cuts|
  {
    RenderedLength(text, cuts);
    KeptBeforeCuts(text, cuts);
    var from := Before(cuts, |cuts|);
    forall i: nat
      ensures i in KeptUpTo(cuts, |text|) <==> i in KeptUpTo(cuts, from) || InSpan(from, |text|, i)
    {
      if from <= i < |text| {
        GapIsKept(text, cuts, |cuts|, i);
      }
    }
    assert KeptUpTo(cuts, |text|) == KeptUpTo(cuts, from) + Span(from, |text|);
    SpanSize(from, |text|);
  }

  /** The marker stands at p. */
  predicate MarkedAt(rendered: string, p: int) {
    0 <= p <= p + 10 <= |rendered| && rendered[p..p + 10] == "[REDACTED]"
  }

  /** Every cut leaves the marker, right after the gap before it. */
  lemma {:induction false} MarkerAt(text: string, cuts: seq<Cut>, n: nat)
    requires Ordered(text, cuts) && n < |cuts|
    ensures MarkedAt(Rendered(text, cuts), Position(cuts, n, cuts[n].from))
    decreases |cuts|
  {
    var last := |cuts| - 1;
    RenderedStep(text, cuts);
    if n < last {
      MarkerAt(text, cuts[..last], n);
      PositionOfShorter(text, cuts, last, n, cuts[n].from);
      MarkedInFront(Rendered(text, cuts[..last]), text[Before(cuts, last)..cuts[last].from],
        Position(cuts, n, cuts[n].from));
    } else {
      LastMarker(text, cuts);
    }
  }

  lemma LastMarker(text: string, cuts: seq<Cut>)
    requires Ordered(text, cuts) && cuts != []
    ensures var last := |cuts| - 1; MarkedAt(Rendered(text, cuts), Position(cuts, last, cuts[last].from))
  {
    var last := |cuts| - 1;
    RenderedStep(text, cuts);
    RenderedLength(text, cuts[..last]);
    MarkedBehind(Rendered(text, cuts[..last]), text[Before(cuts, last)..cuts[last].from]);
  }

  lemma MarkedInFront(front: string, gap: string, p: int)
    requires MarkedAt(front, p)
    ensures MarkedAt(front + gap + MARKER, p)
  {
    assert (front + gap + MARKER)[p..p + 10] == front[p..p + 10];
  }

  lemma MarkedBehind(front: string, gap: string)
    ensures MarkedAt(front + gap + MARKER, |front| + |gap|)
  {
    var p := |front| + |gap|;
    assert (front + gap + MARKER)[p..p + 10] == MARKER;
  }

  lemma {:induction false} OrderedFar(text: string, cuts: seq<Cut>, i: nat, j: nat)
    requires Ordered(text, cuts) && i < j <= |cuts|
    ensures cuts[i].to <= Before(cuts, j)
  {
    if i + 1 < j {
      OrderedFar(text, cuts, i, j - 1);
    }
  }

  /** Between the cut before the n-th one and the n-th one, or after the last one. */
  predicate InGap(text: string, cuts: seq<Cut>, n: nat, i: int)
    requires n <= |cuts|
  {
    Before(cuts, n) <= i < (if n < |cuts| then cuts[n].from else |text|)
  }

  lemma GapIsKept(text: string, cuts: seq<Cut>, n: nat, i: int)
    requires Ordered(text, cuts) && n <= |cuts| && InGap(text, cuts, n, i)
    ensures 0 <= i < |text| && Kept(cuts, i)
  {
    forall j | 0 <= j < |cuts|
      ensures !(cuts[j].from <= i < cuts[j].to)
    {
      if j < n {
        OrderedFar(text, cuts, j, n);
      } else if n < j {
        OrderedFar(text, cuts, n, j);
      }
    }
  }

  /** The two texts agree in the gaps before the cuts. */
  ghost predicate SameGaps(text: string, other: string, cuts: seq<Cut>) {
    |other| == |text| && forall n, i :: 0 <= n < |cuts| && InGap(text, cuts, n, i) && 0 <= i < |text| ==> other[i] == text[i]
  }

  lemma SameGapsShorter(text: string, other: string, cuts: seq<Cut>, m: nat)
    requires Ordered(text, cuts) && m <= |cuts| && SameGaps(text, other, cuts)
    ensures SameGaps(text, other, cuts[..m])
  {
    forall n, i | 0 <= n < m && InGap(text, cuts[..m], n, i) && 0 <= i < |text|
      ensures other[i] == text[i]
    {
      GapOfShorter(text, cuts, m, n, i);
    }
  }

  lemma SameGap(text: string, other: string, cuts: seq<Cut>, n: nat)
    requires Ordered(text, cuts) && n < |cuts| && SameGaps(text, other, cuts)
    ensures other[Before(cuts, n)..cuts[n].from] == text[Before(cuts, n)..cuts[n].from]
  {
    forall i | Before(cuts, n) <= i < cuts[n].from
      ensures other[i] == text[i]
    {
      assert InGap(text, cuts, n, i);
    }
  }

  lemma {:induction false} RenderedHides(text: string, other: string, cuts: seq<Cut>)
    requires Ordered(text, cuts) && Ordered(other, cuts) && SameGaps(text, other, cuts)
    ensures Rendered(other, cuts) == Rendered(text, cuts)
    decreases |cuts|
  {
    if cuts != [] {
      var last := |cuts| - 1;
      RenderedStep(text, cuts);
      RenderedStep(other, cuts);
      SameGapsShorter(text, other, cuts, last);
      RenderedHides(text, other, cuts[..last]);
      SameGap(text, other, cuts, last);
    }
  }

  lemma CoveredStays(text: string, keys: Keys, cuts: seq<Cut>, cut: Cut, key: nat)
    requires KeysFit(text, keys) && Covered(text, keys, cuts, key)
    ensures Covered(text, keys, cuts + [cut], key)
  {
    forall k | Processed(text, keys, cuts, k)
      ensures Processed(text, keys, cuts + [cut], k)
    {
      ProcessedStays(text, keys, cuts, cut, k);
    }
    if c :| c in cuts && c.from <= key < c.to {
      assert c in cuts + [cut];
    }
  }

  lemma ProcessedStays(text: string, keys: Keys, cuts: seq<Cut>, cut: Cut, key: nat)
    requires KeysFit(text, keys) && Processed(text, keys, cuts, key)
    ensures Processed(text, keys, cuts + [cut], key)
  {
    if c :| c in cuts && CutFor(text, keys, key, c) {
      assert c in cuts + [cut];
    }
  }

  lemma OrderedGrows(text: string, cuts: seq<Cut>, cut: Cut)
    requires Ordered(text, cuts) && Before(cuts, |cuts|) <= cut.from <= cut.to <= |text|
    ensures Ordered(text, cuts + [cut])
    ensures Before(cuts + [cut], |cuts| + 1) == cut.to
    ensures Before(cuts + [cut], |cuts|) == Before(cuts, |cuts|)
  {
    var more := cuts + [cut];
    forall i | 0 <= i < |more|
      ensures Before(more, i) == Before(cuts, i)
    {
    }
  }

  lemma RenderedGrows(text: string, cuts: seq<Cut>, cut: Cut)
    requires Ordered(text, cuts) && Ordered(text, cuts + [cut])
    requires Before(cuts + [cut], |cuts|) == Before(cuts, |cuts|) <= cut.from <= |text|
    ensures Rendered(text, cuts + [cut])
      == Rendered(text, cuts) + text[Before(cuts, |cuts|)..cut.from] + MARKER
  {
    assert (cuts + [cut])[..|cuts|] == cuts;
  }

  ghost predicate Wanted(text: string, keys: Keys, cut: Cut)
    requires KeysFit(text, keys)
  {
    exists key: nat :: key < |keys| && keys[key].Some? && CutFor(text, keys, key, cut)
  }

  /** Once the first key from `from` on is processed, the keys that start inside it are covered. */
  lemma ProcessedCovers(text: string, keys: Keys, cuts: seq<Cut>, from: nat, key: nat, end: nat)
    requires KeysFit(text, keys) && from <= key && Processed(text, keys, cuts, key)
    requires end <= keys[key].value
    requires forall i :: from <= i < key ==> keys[i].None?
    ensures forall k: nat :: from <= k < end && keys[k].Some? ==> Covered(text, keys, cuts, k)
  {
    forall k: nat | from <= k < end && keys[k].Some?
      ensures Covered(text, keys, cuts, k)
    {
      assert k > key ==> k < keys[key].value;
    }
  }

  /** Once the first key from `from` on is cut for, the keys before the end of the cut are covered. */
  lemma CutCovers(text: string, keys: Keys, cuts: seq<Cut>, from: nat, key: nat, cut: Cut, k: nat)
    requires KeysFit(text, keys) && from <= key < |keys| && keys[key].Some? && CutFor(text, keys, key, cut)
    requires forall i :: from <= i < key ==> keys[i].None?
    requires k < |keys| && keys[k].Some? && (k < from ==> Covered(text, keys, cuts, k))
    requires k < cut.to
    ensures Covered(text, keys, cuts + [cut], k)
  {
    var more := cuts + [cut];
    assert more[|cuts|] == cut && cut in more;
    if k < from {
      CoveredStays(text, keys, cuts, cut, k);
    } else {
      assert Processed(text, keys, more, key);
      assert k == key || key < k < keys[key].value || cut.from <= k < cut.to;
    }
  }

  ghost method WithCut(text: string, keys: Keys, cuts: seq<Cut>, from: nat, key: nat, cut: Cut) returns (more: seq<Cut>)
    requires KeysFit(text, keys) && from <= key < |keys| && keys[key].Some? && CutFor(text, keys, key, cut)
    requires forall i :: from <= i < key ==> keys[i].None?
    requires Ordered(text, cuts) && Before(cuts, |cuts|) <= from
    requires keys[key].value <= cut.from <= cut.to <= |text|
    requires forall k: nat :: k < from && k < |keys| && keys[k].Some? ==> Covered(text, keys, cuts, k)
    requires forall c :: c in cuts ==> Wanted(text, keys, c)
    ensures more == cuts + [cut] && Ordered(text, more) && Before(more, |more|) == cut.to
    ensures Rendered(text, more) == Rendered(text, cuts) + text[Before(cuts, |cuts|)..cut.from] + MARKER
    ensures forall k: nat :: k < cut.to && keys[k].Some? ==> Covered(text, keys, more, k)
    ensures forall c :: c in more ==> Wanted(text, keys, c)
  {
    more := cuts + [cut];
    OrderedGrows(text, cuts, cut);
    RenderedGrows(text, cuts, cut);
    forall k: nat | k < cut.to && keys[k].Some?
      ensures Covered(text, keys, more, k)
    {
      CutCovers(text, keys, cuts, from, key, cut, k);
    }
    forall c | c in more
      ensures Wanted(text, keys, c)
    {
      assert c in cuts || c == cut;
    }
  }

  /** Ascending disjoint cuts, one for every key that needs one and none besides. */
  ghost predicate CutsFor(text: string, keys: Keys, cuts: seq<Cut>)
    requires KeysFit(text, keys)
  {
    && Ordered(text, cuts)
    && (forall key: nat :: key < |keys| && keys[key].Some? ==> Covered(text, keys, cuts, key))
    && (forall cut :: cut in cuts ==> Wanted(text, keys, cut))
  }

  method RedactSensitiveMappingValues(text: string, keys: Keys) returns (r: string)
    requires KeysFit(text, keys)
    ensures exists cuts :: CutsFor(text, keys, cuts) && r == Redacted(text, cuts)
    ensures (forall i :: 0 <= i < |keys| ==> keys[i].None?) ==> r == text
  {
    var rendered, cursor, searchPosition := "", 0, 0;
    ghost var cuts: seq<Cut> := [];
    while true
      invariant 0 <= cursor <= searchPosition <= |text|
      invariant Ordered(text, cuts) && rendered == Rendered(text, cuts) && cursor == Before(cuts, |cuts|)
      invariant forall key: nat :: key < searchPosition && keys[key].Some? ==> Covered(text, keys, cuts, key)
      invariant forall cut :: cut in cuts ==> Wanted(text, keys, cut)
      decreases |text| - searchPosition
    {
      var found := Search(keys, searchPosition);
      if found.None? {
        break;
      }
      var key, keyEnd := found.value, keys[found.value].value;
      var scanEnd := WindowEnd(text, key);
      var valueStart := MappingValueStart(text, keyEnd, scanEnd);
      match valueStart
      case Assignment =>
        ProcessedCovers(text, keys, cuts, searchPosition, key, keyEnd);
        searchPosition := keyEnd;
      case NoSeparator =>
        rendered := rendered + text[cursor..keyEnd] + MARKER;
        cuts := WithCut(text, keys, cuts, searchPosition, key, Cut(keyEnd, |text|));
        cursor := |text|;
        break;
      case ValueAt(start) =>
        var valueEnd := StructuredValueEnd(text, start, scanEnd);
        ValueEndIsDelimiter(text, start, scanEnd, valueEnd);
        rendered := rendered + text[cursor..start] + MARKER;
        cuts := WithCut(text, keys, cuts, searchPosition, key, Cut(start, valueEnd));
        cursor := if valueEnd >= start then valueEnd else start;
        searchPosition := cursor;
    }
    r := rendered + text[cursor..];
    assert CutsFor(text, keys, cuts) && r == Redacted(text, cuts);
    if forall i :: 0 <= i < |keys| ==> keys[i].None? {
      NothingToCut(text, keys, cuts);
    }
  }

  lemma NothingToCut(text: string, keys: Keys, cuts: seq<Cut>)
    requires KeysFit(text, keys) && CutsFor(text, keys, cuts) && forall i :: 0 <= i < |keys| ==> keys[i].None?
    ensures Redacted(text, cuts) == text
  {
    assert cuts != [] ==> Wanted(text, keys, cuts[0]);
  }
}
