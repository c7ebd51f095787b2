/** Python's text of an integer and int() of a text. */
module Numerals {
  import opened Outcomes
  import opened Text

  function Digit(d: nat): char
    requires d < 10
  {
    ('0' as int + d) as char
  }

  function Decimal(n: nat): string {
    if n < 10 then [Digit(n)] else Decimal(n / 10) + [Digit(n % 10)]
  }

  function IntText(n: int): string {
    if n < 0 then "-" + Decimal(-n) else Decimal(n)
  }

  /** Digits, with single underscores allowed between them. */
  function ParseDigits(s: string): Option<nat> {
    if s == "" || !('0' <= s[|s| - 1] <= '9') then None
    else
      var d := s[|s| - 1] as int - '0' as int;
      var rest := s[..|s| - 1];
      if rest == "" then Some(d)
      else
        var higher := ParseDigits(if rest[|rest| - 1] == '_' then rest[..|rest| - 1] else rest);
        if higher.None? then None else Some(10 * higher.value + d)
  }

  function Negated(n: int): Option<int> {
    Some(-n)
  }

  /** int() of a text. */
  function ParseInt(s: string): Option<int> {
    var t := Strip(s);
    if t != "" && t[0] == '-' then
      var n := ParseDigits(t[1..]);
      if n.None? then None else Negated(n.value)
    else
      var n := ParseDigits(if t != "" && t[0] == '+' then t[1..] else t);
      if n.None? then None else Some(n.value)
  }

  lemma {:induction false} DecimalParses(n: nat)
    ensures ParseDigits(Decimal(n)) == Some(n)
    ensures Decimal(n) != [] && '0' <= Decimal(n)[0] <= '9' && '0' <= Decimal(n)[|Decimal(n)| - 1] <= '9'
  {
    if n >= 10 {
      DecimalParses(n / 10);
      var s := Decimal(n);
      assert s[..|s| - 1] == Decimal(n / 10);
      assert s[|s| - 1] == Digit(n % 10);
    }
  }

  lemma IntTextParses(n: int)
    ensures ParseInt(IntText(n)) == Some(n)
  {
    var s, digits := IntText(n), Decimal(if n < 0 then -n else n);
    DecimalParses(if n < 0 then -n else n);
    assert s[|s| - 1] == digits[|digits| - 1];
    assert s[0] == '-' || s[0] == digits[0];
    assert Trimmed(s);
    StripTrims(s);
    if n < 0 {
      assert s[1..] == digits;
    }
  }

  lemma {:induction false} DecimalDigits(n: nat)
    ensures forall c :: c in Decimal(n) ==> '0' <= c <= '9'
  {
    if n >= 10 {
      DecimalDigits(n / 10);
    }
  }
}
