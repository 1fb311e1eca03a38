/**
 AIS payloads: binary digits in groups of six, each armoured as a character,
 and the reading of bit ranges from them, for position reports (message 1,
 section 3.1 of Annex 8 of ITU-R M.1371-5).
 */
module Ais {
  import opened Bits

  type Byte = x: int | 0 <= x < 256

  // ---------- armour ----------

  /** The character of a group's number, by the arithmetic of the code. */
  function Armoured(v: int): (c: int) {
    if v < 40 then v + 48 else v + 56
  }

  /** A character as Go writes it in a string: one byte up to 127 and two up to 2047; a negative one is the replacement character. */
  function Written(c: int): (bytes: seq<Byte>)
    requires c < 0x800
    ensures bytes != [] && (0 <= c < 128 ==> bytes == [c])
  {
    if c < 0 then [0xEF, 0xBF, 0xBD] else if c < 128 then [c] else [0xC0 + c / 64, 0x80 + c % 64]
  }

  /** DecodeAisChar, in byte arithmetic. */
  function Decoded(c: Byte): (v: Byte) {
    var x := (c - 48) % 256;
    if x > 40 then (x - 8) % 256 else x
  }

  /** The characters of the six-bit alphabet. */
  predicate InAlphabet(c: Byte) {
    48 <= c <= 87 || 96 <= c <= 119
  }

  lemma ArmourRoundTrip(v: nat)
    requires v < 64
    ensures Written(Armoured(v)) == [Armoured(v)] && InAlphabet(Armoured(v)) && Decoded(Armoured(v)) == v
  {
  }

  /** Greater values get greater characters, so there is no other way to number the alphabet. */
  lemma ArmourIsOrdered(v: nat, w: nat)
    requires v < 64 && w < 64
    ensures v < w <==> Armoured(v) < Armoured(w)
  {
  }

  lemma AlphabetDecodes(c: Byte)
    requires InAlphabet(c)
    ensures Decoded(c) < 64 && Armoured(Decoded(c)) == c
  {
  }

  function SixBits(v: nat): (s: string)
    requires v < 64
    ensures |s| == 6 && AllBits(s) && Value(s) == v
  {
    assert Pow2(6) == 64;
    FieldInRange(v, 6);
    Padded(FormatBinary(v), 6)
  }

  /** Every character stands for six bits. */
  predicate Readable(payload: seq<Byte>) {
    forall i :: 0 <= i < |payload| ==> Decoded(payload[i]) < 64
  }

  /** The digits of a payload. */
  function Dearmoured(payload: seq<Byte>): (s: string)
    requires Readable(payload)
    ensures |s| == 6 * |payload| && AllBits(s)
  {
    if payload == [] then []
    else
      var n := |payload| - 1;
      Dearmoured(payload[..n]) + SixBits(Decoded(payload[n]))
  }

  lemma {:induction false} DearmouredAt(payload: seq<Byte>, i: nat)
    requires Readable(payload) && i < |payload|
    ensures Dearmoured(payload)[6 * i..6 * i + 6] == SixBits(Decoded(payload[i]))
  {
    var n := |payload| - 1;
    if i < n {
      DearmouredAt(payload[..n], i);
      assert Dearmoured(payload)[6 * i..6 * i + 6] == Dearmoured(payload[..n])[6 * i..6 * i + 6];
    }
  }

  // ---------- grouping ----------

  /** Strings one after the other. */
  function Joined(parts: seq<string>): (s: string) {
    if parts == [] then "" else Joined(parts[..|parts| - 1]) + parts[|parts| - 1]
  }

  datatype Scanned = Number(n: nat) | TooLarge | Malformed

  /** strconv.ParseUint in base 2 with 8 bits: the first digit that does not fit, or is none, ends it. */
  function Scan(s: string): (r: Scanned)
    ensures r.Number? ==> r.n < 256
  {
    if s == [] then Number(0)
    else
      var before, d := Scan(s[..|s| - 1]), s[|s| - 1];
      if !before.Number? then before
      else if !IsBit(d) then Malformed
      else if 2 * before.n + Digit(d) > 255 then TooLarge
      else Number(2 * before.n + Digit(d))
  }

  /** strconv.ParseInt in base 2 with 8 bits: it takes a sign and saturates, and gives zero for what is no number. */
  function ParseInt8(s: string): (n: int)
    ensures -128 <= n < 128
  {
    var signed := s != [] && (s[0] == '+' || s[0] == '-');
    var negative := signed && s[0] == '-';
    var digits := if signed then s[1..] else s;
    if digits == [] then 0
    else
      match Scan(digits)
      case Number(n) => if negative then (if n > 128 then -128 else 0 - n) else if n >= 128 then 127 else n
      case TooLarge => if negative then -128 else 127
      case Malformed => 0
  }

  lemma {:induction false} ScanOfBits(s: string)
    requires AllBits(s)
    ensures Scan(s) == if Value(s) < 256 then Number(Value(s)) else TooLarge
  {
    if s != [] {
      ScanOfBits(s[..|s| - 1]);
    }
  }

  /** Binary digits are read as their number, saturated. */
  lemma ParseOfBits(s: string)
    requires AllBits(s)
    ensures ParseInt8(s) == if Value(s) < 128 then Value(s) else 127
  {
    assert s != [] ==> IsBit(s[0]);
    ScanOfBits(s);
  }

  /** How many groups there are, and what each holds; the last one takes all that is left and the fill bits. */
  function GroupCount(bits: string, fill: nat): (n: nat) {
    (|bits| + fill) / 6
  }

  /** The code indexes the digits out of range otherwise. */
  predicate Groupable(bits: string, fill: nat) {
    GroupCount(bits, fill) > 0 ==> 6 * (GroupCount(bits, fill) - 1) <= |bits|
  }

  function Group(bits: string, fill: nat, i: nat): (s: string)
    requires Groupable(bits, fill) && i < GroupCount(bits, fill)
  {
    if i == GroupCount(bits, fill) - 1 then bits[6 * i..] + Zeros(fill) else bits[6 * i..6 * i + 6]
  }

  function Groups(bits: string, fill: nat): (gs: seq<string>)
    requires Groupable(bits, fill)
    ensures |gs| == GroupCount(bits, fill) && forall i :: 0 <= i < |gs| ==> gs[i] == Group(bits, fill, i)
  {
    seq(GroupCount(bits, fill), i requires 0 <= i < GroupCount(bits, fill) => Group(bits, fill, i))
  }

  /** What is written for a group. */
  function Symbol(s: string): (bytes: seq<Byte>) {
    Written(Armoured(ParseInt8(s)))
  }

  function Symbols(gs: seq<string>): (data: seq<Byte>) {
    if gs == [] then [] else Symbols(gs[..|gs| - 1]) + Symbol(gs[|gs| - 1])
  }

  function Payload(bits: string, fill: nat): (data: seq<Byte>)
    requires Groupable(bits, fill)
  {
    Symbols(Groups(bits, fill))
  }

  lemma SixInARow(bits: string, j: nat)
    requires j + 6 <= |bits|
    ensures [bits[j], bits[j + 1], bits[j + 2], bits[j + 3], bits[j + 4], bits[j + 5]] == bits[j..j + 6]
  {
  }

  /** Cut into groups. */
  method Cut(bits: string, fill: nat) returns (encdata: array<string>)
    requires Groupable(bits, fill)
    ensures encdata[..] == Groups(bits, fill)
  {
    var n := GroupCount(bits, fill);
    encdata := new string[n](_ => "");
    var j := 0;
    for i := 0 to n
      invariant j == if i < n || n == 0 then 6 * i else |bits|
      invariant forall k :: 0 <= k < i ==> encdata[k] == Group(bits, fill, k)
      invariant forall k :: i <= k < n ==> encdata[k] == ""
    {
      if i == n - 1 {
        while j < |bits|
          invariant 6 * i <= j <= |bits| && encdata[i] == bits[6 * i..j]
          invariant forall k :: 0 <= k < i ==> encdata[k] == Group(bits, fill, k)
        {
          encdata[i] := encdata[i] + [bits[j]];
          j := j + 1;
        }
        assert bits[6 * i..|bits|] == bits[6 * i..];
        for h := 0 to fill
          invariant encdata[i] == bits[6 * i..] + Zeros(h)
          invariant forall k :: 0 <= k < i ==> encdata[k] == Group(bits, fill, k)
        {
          assert Zeros(h) + "0" == Zeros(h + 1);
          encdata[i] := encdata[i] + "0";
        }
      } else {
        SixInARow(bits, j);
        encdata[i] := [bits[j], bits[j + 1], bits[j + 2], bits[j + 3], bits[j + 4], bits[j + 5]];
        j := j + 6;
      }
    }
  }

  /** Armour each group. */
  method WriteGroups(gs: seq<string>) returns (data: seq<Byte>)
    ensures data == Symbols(gs)
  {
    data := [];
    for i := 0 to |gs|
      invariant data == Symbols(gs[..i])
    {
      data := data + Symbol(gs[i]);
      assert gs[..i + 1][..i] == gs[..i];
    }
    assert gs[..|gs|] == gs;
  }

  /** Cut into groups, and armour each. */
  method Armour(bits: string, fill: nat) returns (data: seq<Byte>)
    requires Groupable(bits, fill)
    ensures data == Payload(bits, fill)
  {
    var encdata := Cut(bits, fill);
    data := WriteGroups(encdata[..]);
  }

  lemma {:induction false} SixBitValue(s: string)
    requires |s| == 6 && AllBits(s)
    ensures Value(s) < 64 && SixBits(Value(s)) == s
  {
    ValueBelow(s);
    assert Pow2(6) == 64;
    ValueIsInjective(SixBits(Value(s)), s);
  }

  /** A group of six digits is written as one character of the alphabet, which has these digits. */
  lemma SixBitGroup(s: string)
    requires |s| == 6 && AllBits(s)
    ensures |Symbol(s)| == 1 && InAlphabet(Symbol(s)[0]) && Decoded(Symbol(s)[0]) < 64 && SixBits(Decoded(Symbol(s)[0])) == s
  {
    SixBitValue(s);
    ParseOfBits(s);
    ArmourRoundTrip(Value(s));
  }

  /** Characters of the alphabet with these digits. */
  ghost predicate Carries(data: seq<Byte>, digits: string) {
    && Readable(data) && Dearmoured(data) == digits
    && forall i :: 0 <= i < |data| ==> InAlphabet(data[i])
  }

  /** One more character, six more digits. */
  lemma CarriesOneMore(data: seq<Byte>, digits: string, bytes: seq<Byte>, s: string)
    requires Carries(data, digits) && |bytes| == 1 && InAlphabet(bytes[0]) && Decoded(bytes[0]) < 64 && SixBits(Decoded(bytes[0])) == s
    ensures Carries(data + bytes, digits + s)
  {
    assert (data + bytes)[..|data|] == data;
  }

  lemma {:induction false} SymbolsCarry(gs: seq<string>)
    requires forall i :: 0 <= i < |gs| ==> |gs[i]| == 6 && AllBits(gs[i])
    ensures Carries(Symbols(gs), Joined(gs))
  {
    if gs != [] {
      var n := |gs| - 1;
      SymbolsCarry(gs[..n]);
      SixBitGroup(gs[n]);
      CarriesOneMore(Symbols(gs[..n]), Joined(gs[..n]), Symbol(gs[n]), gs[n]);
    }
  }

  /** The groups of a string, joined, are the string. */
  lemma {:induction false} JoinedSlices(gs: seq<string>, all: string)
    requires |all| == 6 * |gs| && forall i :: 0 <= i < |gs| ==> gs[i] == all[6 * i..6 * i + 6]
    ensures Joined(gs) == all
  {
    if gs != [] {
      var n := |gs| - 1;
      forall i | 0 <= i < n ensures gs[..n][i] == all[..6 * n][6 * i..6 * i + 6] {
        assert gs[i] == all[6 * i..6 * i + 6];
      }
      JoinedSlices(gs[..n], all[..6 * n]);
      assert all == all[..6 * n] + all[6 * n..6 * n + 6];
    }
  }

  /** When the fill bits complete the last group, every group has six digits. */
  lemma GroupsAreSlices(bits: string, fill: nat, i: nat)
    requires AllBits(bits) && Groupable(bits, fill) && (|bits| + fill) % 6 == 0 && i < GroupCount(bits, fill)
    ensures 6 * i + 6 <= |bits| + fill && Group(bits, fill, i) == (bits + Zeros(fill))[6 * i..6 * i + 6]
    ensures |Group(bits, fill, i)| == 6 && AllBits(Group(bits, fill, i))
  {
  }

  /**
   When the fill bits complete the last group, removing the armour gives back
   the digits and the fill, and every character is in the alphabet.
   */
  lemma DearmourUndoes(bits: string, fill: nat)
    requires AllBits(bits) && Groupable(bits, fill) && (|bits| + fill) % 6 == 0
    ensures Carries(Payload(bits, fill), bits + Zeros(fill))
  {
    var gs := Groups(bits, fill);
    forall i | 0 <= i < |gs|
      ensures |gs[i]| == 6 && AllBits(gs[i]) && 6 * i + 6 <= |bits| + fill && gs[i] == (bits + Zeros(fill))[6 * i..6 * i + 6]
    {
      GroupsAreSlices(bits, fill, i);
    }
    SymbolsCarry(gs);
    JoinedSlices(gs, bits + Zeros(fill));
  }
}
