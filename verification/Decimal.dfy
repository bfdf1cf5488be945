/** Integers in decimal, as Python prints and reads them. */
module Decimal {

  import opened Prelude

  function DigitOf(n: nat): char
    requires n < 10
  {
    '0' + n as char
  }

  predicate IsDigit(c: char) {
    '0' <= c <= '9'
  }

  function Value(c: char): nat
    requires IsDigit(c)
  {
    (c - '0') as nat
  }

  /** str(n) */
  function Print(n: int): (s: string)
    ensures s != [] && forall i | 0 <= i < |s| :: IsDigit(s[i]) || (i == 0 && n < 0 && s[i] == '-')
    decreases if n < 0 then 1 - n else n
  {
    if n < 0 then "-" + Print(-n)
    else if n < 10 then [DigitOf(n)]
    else Print(n / 10) + [DigitOf(n % 10)]
  }

  /** What `int` skips around a number. */
  predicate IsBlank(c: char) {
    || '\t' <= c <= '\r' || c == ' ' || c == '\U{85}' || c == '\U{a0}' || c == '\U{1680}'
    || '\U{2000}' <= c <= '\U{200a}' || c == '\U{2028}' || c == '\U{2029}' || c == '\U{202f}'
    || c == '\U{205f}' || c == '\U{3000}'
  }

  /** The number a numeral stands for: digits, with single underscores allowed between them. */
  function Numeral(s: string): Option<int>
    decreases |s|
  {
    var k := |s| - 1;
    if s == [] || !IsDigit(s[k]) then None
    else if k == 0 then Some(Value(s[0]))
    else
      var rest := Numeral(if s[k - 1] == '_' then s[..k - 1] else s[..k]);
      if rest.None? then None else Some(10 * rest.value + Value(s[k]))
  }

  /** int(s), or None for a ValueError: blanks around it, a sign, then a numeral. */
  function Parse(s: string): Option<int>
    decreases |s|
  {
    if s == [] then None
    else if IsBlank(s[0]) then Parse(s[1..])
    else if IsBlank(s[|s| - 1]) then Parse(s[..|s| - 1])
    else if s[0] == '-' then Negated(Numeral(s[1..]))
    else Numeral(if s[0] == '+' then s[1..] else s)
  }

  function Negated(n: Option<int>): Option<int> {
    if n.None? then None else Some(-n.value)
  }

  lemma {:induction false} NumeralOfPrint(n: nat)
    ensures Numeral(Print(n)) == Some(n)
  {
    if n >= 10 {
      var rest := Print(n / 10);
      NumeralOfPrint(n / 10);
      assert Print(n)[..|rest|] == rest && Print(n)[|rest| - 1] == rest[|rest| - 1];
    }
  }

  lemma ParsePrint(n: int)
    ensures Parse(Print(n)) == Some(n)
  {
    var k: nat := if n < 0 then -n else n;
    var t := Print(n);
    NumeralOfPrint(k);
    assert !IsBlank(t[0]) && !IsBlank(t[|t| - 1]);
    assert n < 0 ==> t[1..] == Print(k);
  }

  /** Blanks around a number do not matter, such as the newline at the end of a record. */
  lemma {:induction false} ParseAround(a: string, s: string, b: string)
    requires (forall i | 0 <= i < |a| :: IsBlank(a[i])) && (forall i | 0 <= i < |b| :: IsBlank(b[i]))
    ensures Parse(a + s + b) == Parse(s)
    decreases |a| + |b| + |s|
  {
    var t := a + s + b;
    if a != [] {
      assert t[1..] == a[1..] + s + b;
      ParseAround(a[1..], s, b);
    } else if s != [] && IsBlank(s[0]) {
      assert t[1..] == a + s[1..] + b;
      ParseAround(a, s[1..], b);
    } else if b == [] {
      assert t == s;
    } else if s == [] {
      assert t == b;
      NoNumber(b);
    } else {
      var k := |b| - 1;
      assert t[0] == s[0] && t[..|s| + k] == a + s + b[..k];
      ParseAround(a, s, b[..k]);
    }
  }

  lemma {:induction false} NoNumber(b: string)
    requires forall i | 0 <= i < |b| :: IsBlank(b[i])
    ensures Parse(b) == None
  {
    if b != [] {
      NoNumber(b[1..]);
    }
  }
}
