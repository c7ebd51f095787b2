/** Python's str.strip and splitting, on sequences of characters. */
module Text {

  /** str.isspace for one character. */
  predicate IsSpace(c: char) {
    var n := c as int;
    || 0x09 <= n <= 0x0d || 0x1c <= n <= 0x20 || n == 0x85 || n == 0xa0 || n == 0x1680
    || 0x2000 <= n <= 0x200a || n == 0x2028 || n == 0x2029 || n == 0x202f || n == 0x205f || n == 0x3000
  }

  function StripLeft(s: string): string {
    if s != [] && IsSpace(s[0]) then StripLeft(s[1..]) else s
  }

  function StripRight(s: string): string {
    if s != [] && IsSpace(s[|s| - 1]) then StripRight(s[..|s| - 1]) else s
  }

  function Strip(s: string): string {
    StripRight(StripLeft(s))
  }

  /** Nothing left to strip. */
  predicate Trimmed(s: string) {
    s == [] || (!IsSpace(s[0]) && !IsSpace(s[|s| - 1]))
  }

  lemma {:induction false} StripLeftIs(s: string)
    ensures var r := StripLeft(s); |r| <= |s| && r == s[|s| - |r|..] && (r == [] || !IsSpace(r[0]))
  {
    if s != [] && IsSpace(s[0]) {
      StripLeftIs(s[1..]);
    }
  }

  lemma {:induction false} StripRightIs(s: string)
    ensures var r := StripRight(s); |r| <= |s| && r == s[..|r|] && (r == [] || !IsSpace(r[|r| - 1]))
  {
    if s != [] && IsSpace(s[|s| - 1]) {
      StripRightIs(s[..|s| - 1]);
    }
  }

  /** The result has nothing to strip, and exactly such texts are left alone. */
  lemma StripTrims(s: string)
    ensures Trimmed(Strip(s))
    ensures Trimmed(s) <==> Strip(s) == s
    ensures Strip(Strip(s)) == Strip(s)
  {
    StripLeftIs(s);
    StripRightIs(StripLeft(s));
  }

  predicate AllSpace(s: string) {
    forall i :: 0 <= i < |s| ==> IsSpace(s[i])
  }

  lemma {:induction false} StripLeftDrops(s: string)
    ensures |StripLeft(s)| <= |s| && AllSpace(s[..|s| - |StripLeft(s)|])
  {
    StripLeftIs(s);
    if s != [] && IsSpace(s[0]) {
      StripLeftDrops(s[1..]);
      var n := |s| - |StripLeft(s)|;
      assert s[..n] == [s[0]] + s[1..][..n - 1];
    }
  }

  lemma {:induction false} StripRightDrops(s: string)
    ensures |StripRight(s)| <= |s| && AllSpace(s[|StripRight(s)|..])
  {
    StripRightIs(s);
    if s != [] && IsSpace(s[|s| - 1]) {
      var shorter := s[..|s| - 1];
      StripRightDrops(shorter);
      assert s[|StripRight(s)|..] == shorter[|StripRight(s)|..] + [s[|s| - 1]];
    }
  }

  /** What is stripped is space on either side and nothing else. */
  lemma StripDropsSpace(s: string) returns (before: string, after: string)
    ensures s == before + Strip(s) + after && AllSpace(before) && AllSpace(after)
  {
    var t := StripLeft(s);
    StripLeftIs(s);
    StripRightIs(t);
    StripLeftDrops(s);
    StripRightDrops(t);
    before, after := s[..|s| - |t|], t[|Strip(s)|..];
  }

  /** With that, the result is determined: it is the one middle part with no space at its ends. */
  lemma StripIsOne(s: string, before: string, middle: string, after: string)
    requires s == before + middle + after && AllSpace(before) && AllSpace(after) && middle != "" && Trimmed(middle)
    ensures Strip(s) == middle
  {
    var b, a := StripDropsSpace(s);
    StripTrims(s);
    SpaceBefore(s, b, before, middle);
    SpaceAfter(s, a, middle, after);
    MiddleIsOne(s, before, middle, after, b, Strip(s), a);
  }

  lemma SpaceBefore(s: string, b: string, before: string, middle: string)
    requires b <= s && before + middle <= s && AllSpace(b) && middle != "" && !IsSpace(middle[0])
    ensures |b| <= |before|
  {
    assert s[|before|] == middle[0];
    assert forall i :: 0 <= i < |b| ==> IsSpace(b[i]) && s[i] == b[i];
  }

  lemma SpaceAfter(s: string, a: string, middle: string, after: string)
    requires |a| <= |s| && s[|s| - |a|..] == a && AllSpace(a)
    requires middle != "" && !IsSpace(middle[|middle| - 1])
    requires |middle| + |after| <= |s| && s[|s| - |after| - |middle|..] == middle + after
    ensures |a| <= |after|
  {
    assert s[|s| - |after| - 1] == (middle + after)[|middle| - 1];
    assert forall i :: 0 <= i < |a| ==> IsSpace(a[i]) && s[|s| - |a| + i] == a[i];
  }

  lemma MiddleIsOne(s: string, before: string, middle: string, after: string, b: string, r: string, a: string)
    requires s == before + middle + after == b + r + a && |b| <= |before| && |a| <= |after|
    requires AllSpace(before) && AllSpace(after) && middle != "" && Trimmed(r)
    ensures r == middle
  {
    assert r != "" && s[|b|] == r[0] && s[|s| - |a| - 1] == r[|r| - 1];
    assert forall i :: 0 <= i < |before| ==> IsSpace(before[i]) && s[i] == before[i];
    assert forall i :: 0 <= i < |after| ==> IsSpace(after[i]) && s[|s| - |after| + i] == after[i];
    assert |b| == |before| && |a| == |after|;
    assert r == s[|b|..|s| - |a|] && middle == s[|before|..|s| - |after|];
  }

  /** Pieces of `s` between separators. */
  function Split(s: string, separators: set<char>): (r: seq<string>)
    ensures |r| >= 1
  {
    if s == [] then [""]
    else
      var rest := Split(s[1..], separators);
      if s[0] in separators then [""] + rest else [[s[0]] + rest[0]] + rest[1..]
  }

  lemma {:induction false} SplitNone(s: string, separators: set<char>)
    requires forall c :: c in s ==> c !in separators
    ensures Split(s, separators) == [s]
  {
    if s != "" {
      SplitNone(s[1..], separators);
      assert s == [s[0]] + s[1..];
    }
  }

  function Prepended(c: char, pieces: seq<string>): seq<string>
    requires pieces != []
  {
    [[c] + pieces[0]] + pieces[1..]
  }

  lemma PrependedConcat(c: char, a: seq<string>, b: seq<string>)
    requires a != []
    ensures Prepended(c, a + b) == Prepended(c, a) + b
  {
    assert (a + b)[1..] == a[1..] + b;
  }

  lemma SplitStep(s: string, separators: set<char>)
    requires s != ""
    ensures var rest := Split(s[1..], separators);
      Split(s, separators) == if s[0] in separators then [""] + rest else Prepended(s[0], rest)
  {
  }

  /** A separator splits a text into the pieces before it and the pieces after it. */
  lemma {:induction false} SplitAt(a: string, c: char, b: string, separators: set<char>)
    requires c in separators
    ensures Split(a + [c] + b, separators) == Split(a, separators) + Split(b, separators)
  {
    if a == "" {
      assert (a + [c] + b)[1..] == b;
    } else {
      SplitAt(a[1..], c, b, separators);
      SplitOneMore(a, a[1..] + [c] + b, Split(b, separators), separators);
      assert [a[0]] + (a[1..] + [c] + b) == a + [c] + b;
    }
  }

  /** The same character before two texts whose pieces begin alike. */
  lemma SplitOneMore(a: string, rest: string, more: seq<string>, separators: set<char>)
    requires a != "" && Split(rest, separators) == Split(a[1..], separators) + more
    ensures Split([a[0]] + rest, separators) == Split(a, separators) + more
  {
    var s, pieces := [a[0]] + rest, Split(a[1..], separators);
    assert s[1..] == rest;
    SplitStep(s, separators);
    SplitStep(a, separators);
    if a[0] in separators {
      BlankConcat(pieces, more);
    } else {
      PrependedConcat(a[0], pieces, more);
    }
  }

  lemma BlankConcat(a: seq<string>, b: seq<string>)
    ensures [""] + (a + b) == [""] + a + b
  {
  }

  lemma {:induction false} StrippedConcat(a: seq<string>, b: seq<string>)
    ensures StrippedNonEmpty(a + b) == StrippedNonEmpty(a) + StrippedNonEmpty(b)
  {
    if a == [] {
      assert a + b == b;
    } else {
      assert (a + b)[1..] == a[1..] + b;
      StrippedConcat(a[1..], b);
    }
  }

  function StrippedNonEmpty(pieces: seq<string>): seq<string> {
    if pieces == [] then []
    else
      var piece := Strip(pieces[0]);
      if piece == [] then StrippedNonEmpty(pieces[1..]) else [piece] + StrippedNonEmpty(pieces[1..])
  }

  lemma {:induction false} StrippedNonEmptyIs(pieces: seq<string>, i: nat)
    requires i < |StrippedNonEmpty(pieces)|
    ensures var piece := StrippedNonEmpty(pieces)[i]; piece != [] && Trimmed(piece)
  {
    var rest := StrippedNonEmpty(pieces[1..]);
    StripTrims(pieces[0]);
    if StrippedNonEmpty(pieces) == rest {
      StrippedNonEmptyIs(pieces[1..], i);
    } else if i > 0 {
      StrippedNonEmptyIs(pieces[1..], i - 1);
    }
  }
}
