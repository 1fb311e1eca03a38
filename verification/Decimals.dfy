/** Decimal numerals, and the reading of unsigned numbers with a base prefix. */
module Decimals {
  import opened Common
  import opened Texts

  function Digit(d: nat): (c: char)
    requires d < 10
    ensures '0' <= c <= '9'
  {
    '0' + d as char
  }

  function Digits(n: nat): (s: string)
    ensures s != "" && forall i :: 0 <= i < |s| ==> '0' <= s[i] <= '9'
  {
    if n < 10 then [Digit(n)] else Digits(n / 10) + [Digit(n % 10)]
  }

  /** How a number is printed. */
  function Decimal(n: int): (s: string) {
    if n < 0 then "-" + Digits(-n) else Digits(n)
  }

  function Lower(c: char): (r: char) {
    if 'A' <= c <= 'Z' then c - 'A' + 'a' else c
  }

  function DigitValue(c: char): (d: Option<nat>) {
    if '0' <= c <= '9' then Some((c - '0') as nat)
    else if 'a' <= Lower(c) <= 'z' then Some((Lower(c) - 'a') as nat + 10)
    else None
  }

  /** The number that digits of a base stand for, if they are digits of it. */
  function Number(s: string, base: nat): (r: Option<nat>) {
    if s == "" then Some(0)
    else match (Number(s[..|s| - 1], base), DigitValue(s[|s| - 1])) {
      case (Some(v), Some(d)) => if d < base then Some(v * base + d) else None
      case (_, _) => None
    }
  }

  const LIMIT := 0x1_0000_0000

  type UInt32 = x: int | 0 <= x < 0x1_0000_0000

  /** The digits without the underscores between them. */
  function Joined(s: string): (r: string)
    ensures '_' !in s ==> r == s
  {
    if s == "" then ""
    else
      var n := |s| - 1;
      assert s == s[..n] + [s[n]];
      Joined(s[..n]) + if s[n] == '_' then "" else [s[n]]
  }

  predicate Prefixed(s: string) {
    |s| >= 2 && s[0] == '0' && (Lower(s[1]) == 'b' || Lower(s[1]) == 'o' || Lower(s[1]) == 'x')
  }

  /** Every underscore stands between digits; a base prefix counts as one. */
  predicate Separated(s: string) {
    if Prefixed(s) then SeparatedAfter(s[2..], Lower(s[1]) == 'x', '0') else SeparatedAfter(s, false, '^')
  }

  /** The same after a digit ('0'), an underscore ('_') or something else. */
  predicate SeparatedAfter(s: string, hex: bool, last: char) {
    if s == "" then last != '_'
    else if '0' <= s[0] <= '9' || (hex && 'a' <= Lower(s[0]) <= 'f') then SeparatedAfter(s[1..], hex, '0')
    else if s[0] == '_' then last == '0' && SeparatedAfter(s[1..], hex, '_')
    else last != '_' && SeparatedAfter(s[1..], hex, '!')
  }

  /** An unsigned number below 2^32, in the base its prefix says; None is an error. */
  function ParseUint(s: string): (r: Option<UInt32>) {
    if s == "" || ('_' in s && !Separated(s)) then None
    else
      var v := if s[0] != '0' then Number(Joined(s), 10)
               else if |s| >= 3 && Lower(s[1]) == 'b' then Number(Joined(s[2..]), 2)
               else if |s| >= 3 && Lower(s[1]) == 'o' then Number(Joined(s[2..]), 8)
               else if |s| >= 3 && Lower(s[1]) == 'x' then Number(Joined(s[2..]), 16)
               else Number(Joined(s[1..]), 8);
      match v
      case Some(n) => if n < LIMIT then Some(n) else None
      case None => None
  }

  lemma {:induction false} DigitsStandForNumber(n: nat)
    ensures Number(Digits(n), 10) == Some(n)
    ensures n > 0 ==> Digits(n)[0] != '0'
  {
    if n < 10 {
      assert Digits(n)[..0] == "";
    } else {
      DigitsStandForNumber(n / 10);
      assert Digits(n)[..|Digits(n)| - 1] == Digits(n / 10);
      assert DigitValue(Digit(n % 10)) == Some(n % 10);
    }
  }

  function Fitting(n: int): (r: Option<UInt32>) {
    if 0 <= n < LIMIT then Some(n) else None
  }

  /** Printed numbers are read back exactly if they are unsigned and fit; others are an error. */
  lemma DecimalReads(n: int)
    ensures ParseUint(Decimal(n)) == Fitting(n)
  {
    if n < 0 {
      MinusIsNoDigit(Decimal(n), 10);
    } else if n == 0 {
      assert Digits(0)[1..] == "";
    } else {
      DigitsStandForNumber(n);
    }
  }

  lemma {:induction false} MinusIsNoDigit(s: string, base: nat)
    requires s != "" && s[0] == '-'
    ensures Number(s, base) == None
  {
    if |s| > 1 {
      MinusIsNoDigit(s[..|s| - 1], base);
    }
  }

  lemma DecimalInjective(m: int, n: int)
    requires Decimal(m) == Decimal(n)
    ensures m == n
  {
    DigitsStandForNumber(if m < 0 then -m else m);
    DigitsStandForNumber(if n < 0 then -n else n);
    if m < 0 && n < 0 {
      assert Decimal(m)[1..] == Digits(-m) && Decimal(n)[1..] == Digits(-n);
    } else {
      assert Decimal(m)[0] == Decimal(n)[0];
    }
  }

  /** A printed number has no separator in it, and is no word. */
  lemma DecimalIsPlain(n: int)
    ensures Decimal(n) != "" && Without(Decimal(n), ':')
    ensures Decimal(n)[0] == '-' || '0' <= Decimal(n)[0] <= '9'
  {
    var d := Digits(if n < 0 then -n else n);
    assert Without(d, ':');
  }
}
