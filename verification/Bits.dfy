/** Binary digits and the unsigned arithmetic that reads them. */
module Bits {

  function Pow2(k: nat): (p: nat)
    ensures p > 0
  {
    if k == 0 then 1 else 2 * Pow2(k - 1)
  }

  predicate IsBit(c: char) {
    c == '0' || c == '1'
  }

  predicate AllBits(s: string) {
    forall i :: 0 <= i < |s| ==> IsBit(s[i])
  }

  function Digit(c: char): (d: nat) {
    if c == '1' then 1 else 0
  }

  /** The number a string of binary digits denotes. */
  function Value(s: string): (n: nat) {
    if s == [] then 0 else 2 * Value(s[..|s| - 1]) + Digit(s[|s| - 1])
  }

  function Zeros(n: nat): (s: string)
    ensures |s| == n && AllBits(s) && forall i :: 0 <= i < n ==> s[i] == '0'
  {
    seq(n, _ => '0')
  }

  lemma {:induction false} ValueOfZeros(n: nat)
    ensures Value(Zeros(n)) == 0
  {
    if n > 0 {
      assert Zeros(n)[..n - 1] == Zeros(n - 1);
      ValueOfZeros(n - 1);
    }
  }

  lemma {:induction false} ValueBelow(s: string)
    ensures Value(s) < Pow2(|s|)
  {
    if s != [] {
      ValueBelow(s[..|s| - 1]);
    }
  }

  /** Leading zeros do not matter. */
  lemma {:induction false} ValueOfPadded(n: nat, s: string)
    ensures Value(Zeros(n) + s) == Value(s)
  {
    if s == [] {
      assert Zeros(n) + s == Zeros(n);
      ValueOfZeros(n);
    } else {
      var k := |s| - 1;
      assert (Zeros(n) + s)[..n + k] == Zeros(n) + s[..k] && (Zeros(n) + s)[n + k] == s[k];
      ValueOfPadded(n, s[..k]);
    }
  }

  /** Leaving out the last digit halves a number, another zero doubles it. */
  lemma ValueOfDropped(s: string)
    requires s != []
    ensures Value(s[..|s| - 1]) == Value(s) / 2
    ensures Value(s + "0") == 2 * Value(s)
  {
    assert (s + "0")[..|s|] == s;
  }

  /** Numbers of one length are told apart by their value. */
  lemma {:induction false} ValueIsInjective(a: string, b: string)
    requires |a| == |b| && AllBits(a) && AllBits(b) && Value(a) == Value(b)
    ensures a == b
  {
    if a != [] {
      var n := |a| - 1;
      assert Digit(a[n]) == Value(a) % 2 && Digit(b[n]) == Value(b) % 2;
      ValueIsInjective(a[..n], b[..n]);
      assert a == a[..n] + [a[n]] && b == b[..n] + [b[n]];
    }
  }

  // ---------- formatting ----------

  /** Binary digits without leading zeros, as strconv.FormatInt writes them. */
  function FormatBinary(n: nat): (s: string)
    ensures s != [] && AllBits(s)
  {
    if n < 2 then [if n == 1 then '1' else '0'] else FormatBinary(n / 2) + [if n % 2 == 1 then '1' else '0']
  }

  lemma {:induction false} FormatBinaryValue(n: nat)
    ensures Value(FormatBinary(n)) == n
  {
    if n < 2 {
      assert FormatBinary(n)[..0] == [];
    } else {
      FormatBinaryValue(n / 2);
      assert FormatBinary(n)[..|FormatBinary(n)| - 1] == FormatBinary(n / 2);
    }
  }

  lemma {:induction false} FormatBinaryLength(n: nat, w: nat)
    requires w > 0
    ensures |FormatBinary(n)| <= w <==> n < Pow2(w)
  {
    if n >= 2 {
      if w == 1 {
        assert Pow2(1) == 2;
      } else {
        FormatBinaryLength(n / 2, w - 1);
      }
    } else {
      assert Pow2(w) == 2 * Pow2(w - 1);
    }
  }

  /** A field: the digits of a number, padded on the left. */
  function Padded(s: string, w: nat): (r: string) {
    if |s| < w then Zeros(w - |s|) + s else s
  }

  /** The digits of a number of either sign. */
  function FormatInt(n: int): (s: string)
    ensures s != []
  {
    if n < 0 then "-" + FormatBinary(-n) else FormatBinary(n)
  }

  method Field(n: int, w: nat) returns (str: string)
    ensures str == Padded(FormatInt(n), w)
  {
    str := FormatInt(n);
    while |str| < w
      invariant |FormatInt(n)| <= |str|
      invariant |str| <= w || str == FormatInt(n)
      invariant str == Zeros(|str| - |FormatInt(n)|) + FormatInt(n)
    {
      assert "0" + Zeros(|str| - |FormatInt(n)|) == Zeros(|str| + 1 - |FormatInt(n)|);
      str := "0" + str;
    }
    assert Zeros(0) == [];
  }

  /** A field in range has its width and its value. */
  lemma FieldInRange(n: nat, w: nat)
    requires w > 0 && n < Pow2(w)
    ensures |Padded(FormatBinary(n), w)| == w && AllBits(Padded(FormatBinary(n), w)) && Value(Padded(FormatBinary(n), w)) == n
  {
    FormatBinaryLength(n, w);
    FormatBinaryValue(n);
    ValueOfPadded(w - |FormatBinary(n)|, FormatBinary(n));
  }

  // ---------- 32-bit words ----------

  /** A 32-bit word, by its digits. */
  predicate IsWord(s: string) {
    |s| == 32 && AllBits(s)
  }

  type Word = s: string | IsWord(s) witness Zeros(32)

  function Shl(s: string, k: nat): (r: string)
    requires IsWord(s)
    ensures IsWord(r)
  {
    if k >= 32 then Zeros(32) else s[k..] + Zeros(k)
  }

  function Shr(s: string, k: nat): (r: string)
    requires IsWord(s)
    ensures IsWord(r)
  {
    if k >= 32 then Zeros(32) else Zeros(k) + s[..32 - k]
  }

  function Or(s: string, t: string): (r: string)
    requires IsWord(s) && IsWord(t)
    ensures IsWord(r)
  {
    seq(32, i requires 0 <= i < 32 => if s[i] == '1' || t[i] == '1' then '1' else '0')
  }
}
