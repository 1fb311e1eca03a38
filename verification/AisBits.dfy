/** Reading bit ranges from a payload. */
module AisBits {
  import opened Bits
  import opened Ais

  /** The positions Go's numbers can count. */
  const LIMIT: int := 0x8000_0000_0000_0000

  type Position = n: nat | n < LIMIT

  // ---------- reading a range of bits ----------

  /** The digits of a payload, with zeros beyond its end. */
  function Extended(payload: seq<Byte>, n: nat): (s: string)
    requires Readable(payload)
    ensures AllBits(s) && |s| == 6 * |payload| + n
  {
    Dearmoured(payload) + Zeros(n)
  }

  /** The number in bits `first` to `last`, bits beyond the end read as zero. */
  function ReadBits(payload: seq<Byte>, first: nat, last: nat): (n: nat)
    requires Readable(payload) && first <= last
  {
    Value(Extended(payload, last + 7)[first..last + 1])
  }

  /**
   Where the bits begin that the code gets of a range.  It gets all of a range
   of up to 32 bits; of a wider one it loses those of the first character, and
   of the others keeps the last 32.
   */
  function Begin(first: nat, last: nat): (lo: nat)
    requires first <= last
    ensures first <= lo <= last && last - lo <= 31 && 6 * (first / 6) <= lo
  {
    if last - first <= 31 then first
    else if 6 * (first / 6) + 6 < last - 31 then last - 31
    else 6 * (first / 6) + 6
  }

  /** What the code reads in a range; nothing in an empty one. */
  function RangeRead(payload: seq<Byte>, first: nat, last: nat): (n: nat)
    requires Readable(payload)
  {
    if last < first then 0 else ReadBits(payload, Begin(first, last), last)
  }

  /** A byte as a word. */
  function WordOf(v: Byte): (w: string)
    ensures IsWord(w)
  {
    assert Pow2(8) == 256;
    FieldInRange(v, 8);
    Zeros(24) + Padded(FormatBinary(v), 8)
  }

  lemma SixBitWord(v: nat)
    requires v < 64
    ensures WordOf(v) == Zeros(26) + SixBits(v)
  {
    assert Pow2(8) == 256;
    FieldInRange(v, 8);
    ValueOfPadded(24, Padded(FormatBinary(v), 8));
    ValueOfPadded(26, SixBits(v));
    ValueIsInjective(WordOf(v), Zeros(26) + SixBits(v));
  }

  /** Position `p` of the result holds bit `p + last - 31` of the payload, once that bit has been reached. */
  ghost predicate HoldsUpTo(word: string, all: string, first: nat, last: nat, hi: nat)
    requires IsWord(word) && first <= last < |all| && last - first <= 31
  {
    forall p :: 0 <= p < 32 ==>
                  word[p] == if first <= p + last - 31 < hi then all[p + last - 31] else '0'
  }

  /** The digits one character contributes. */
  ghost predicate Contributes(word: string, all: string, first: nat, last: nat, c: nat)
    requires IsWord(word) && first <= last < |all| && last - first <= 31
  {
    forall p :: 0 <= p < 32 ==>
                  word[p] == if first <= p + last - 31 && 6 * c <= p + last - 31 < 6 * c + 6 then all[p + last - 31] else '0'
  }

  lemma FirstContributes(six: string, all: string, first: nat, last: nat, c: nat)
    requires |six| == 6 && AllBits(six) && first <= last && last - first <= 31 && last < |all| && 6 * c + 6 <= |all|
    requires c == first / 6 && all[6 * c..6 * c + 6] == six
    ensures Contributes(Shr(Shl(Zeros(26) + six, 26 + first % 6), 31 - (last - first)), all, first, last, c)
  {
    var f, size := first % 6, last - first;
    var w := Shl(Zeros(26) + six, 26 + f);
    assert w == six[f..] + Zeros(26 + f);
    var r := Shr(w, 31 - size);
    assert r == Zeros(31 - size) + w[..size + 1];
    forall p | 0 <= p < 32
      ensures r[p] == if first <= p + last - 31 && 6 * c <= p + last - 31 < 6 * c + 6 then all[p + last - 31] else '0'
    {
      var k := p - (31 - size);
      if 0 <= k < 6 - f {
        assert r[p] == six[f + k] == all[6 * c..6 * c + 6][f + k];
      }
    }
  }

  lemma MiddleContributes(six: string, all: string, first: nat, last: nat, c: nat)
    requires |six| == 6 && AllBits(six) && first <= last && last - first <= 31 && last < |all| && 6 * c + 6 <= |all|
    requires (first <= 6 * c || first == last - 31) && c < last / 6 && all[6 * c..6 * c + 6] == six
    ensures Contributes(Shl(Zeros(26) + six, last - 6 * c - 5), all, first, last, c)
  {
    var s := last - 6 * c - 5;
    var w := Zeros(26) + six;
    var r := Shl(w, s);
    forall p | 0 <= p < 32
      ensures r[p] == if first <= p + last - 31 && 6 * c <= p + last - 31 < 6 * c + 6 then all[p + last - 31] else '0'
    {
      if 26 <= p + s < 32 {
        assert r[p] == w[p + s] == six[p + s - 26] == all[6 * c..6 * c + 6][p + s - 26];
      }
    }
  }

  lemma LastContributes(six: string, all: string, first: nat, last: nat, c: nat)
    requires |six| == 6 && AllBits(six) && first <= last && last - first <= 31 && last < |all| && 6 * c + 6 <= |all|
    requires (first <= 6 * c || first == last - 31) && c == last / 6 && all[6 * c..6 * c + 6] == six
    ensures Contributes(Shr(Zeros(26) + six, 5 - last % 6), all, first, last, c)
  {
    var e := 5 - last % 6;
    var w := Zeros(26) + six;
    var r := Shr(w, e);
    forall p | 0 <= p < 32
      ensures r[p] == if first <= p + last - 31 && 6 * c <= p + last - 31 < 6 * c + 6 then all[p + last - 31] else '0'
    {
      if 26 <= p - e {
        assert r[p] == w[p - e] == six[p - e - 26] == all[6 * c..6 * c + 6][p - e - 26];
      }
    }
  }

  /** Contributions of successive characters add up. */
  lemma OrExtends(result: string, temp: string, all: string, first: nat, last: nat, c: nat)
    requires IsWord(result) && IsWord(temp) && AllBits(all) && first <= last < |all| && last - first <= 31
    requires HoldsUpTo(result, all, first, last, 6 * c) && Contributes(temp, all, first, last, c)
    ensures HoldsUpTo(Or(result, temp), all, first, last, 6 * c + 6)
  {
    forall p | 0 <= p < 32
      ensures Or(result, temp)[p] == if first <= p + last - 31 < 6 * c + 6 then all[p + last - 31] else '0'
    {
      assert first <= p + last - 31 ==> IsBit(all[p + last - 31]);
    }
  }

  lemma BeyondEnd(result: string, all: string, first: nat, last: nat, c: nat, len: nat)
    requires IsWord(result) && first <= last < |all| && last - first <= 31 && len <= 6 * c
    requires forall i :: len <= i < |all| ==> all[i] == '0'
    requires HoldsUpTo(result, all, first, last, 6 * c)
    ensures HoldsUpTo(result, all, first, last, 6 * c + 6)
  {
  }

  lemma CharDigits(payload: seq<Byte>, n: nat, c: nat)
    requires Readable(payload) && c < |payload|
    ensures Decoded(payload[c]) < 64 && Extended(payload, n)[6 * c..6 * c + 6] == SixBits(Decoded(payload[c]))
  {
    DearmouredAt(payload, c);
    assert Extended(payload, n)[6 * c..6 * c + 6] == Dearmoured(payload)[6 * c..6 * c + 6];
  }

  lemma WordIsSlice(result: string, all: string, first: nat, last: nat)
    requires IsWord(result) && first <= last < |all| && last - first <= 31
    requires HoldsUpTo(result, all, first, last, 6 * (last / 6 + 1))
    ensures Value(result) == Value(all[first..last + 1])
  {
    var size := last - first;
    assert result == Zeros(31 - size) + all[first..last + 1];
    ValueOfPadded(31 - size, all[first..last + 1]);
  }

  /** How far the first character is shifted back: in Go's unsigned 64 bit numbers, a range wider than a word wraps around. */
  function Back(size: int): (k: nat)
    requires size < LIMIT
  {
    if size <= 31 then 31 - size else 31 - size + 2 * LIMIT
  }

  /** What the code makes of the character number `i` of a range, as a word. */
  function Piece(w: string, first: Position, last: Position, i: nat): (r: string)
    requires IsWord(w) && i <= last / 6 - first / 6
    ensures IsWord(r)
  {
    if i == 0 then Shr(Shl(w, 26 + first % 6), Back(last - first))
    else if i < last / 6 - first / 6 then Shl(w, last - 6 * (first / 6 + i) - 5)
    else Shr(w, 5 - last % 6)
  }

  /** An empty range, or one wider than a word, loses its first character. */
  lemma FirstIsLost(w: string, first: Position, last: Position)
    requires IsWord(w) && 0 <= last / 6 - first / 6 && (last < first || last - first > 31)
    ensures Piece(w, first, last, 0) == Zeros(32)
  {
    assert Back(last - first) >= 32;
  }

  lemma PieceContributes(six: string, all: string, first: Position, last: Position, i: nat)
    requires |six| == 6 && AllBits(six) && AllBits(all) && first <= last && i <= last / 6 - first / 6
    requires last < |all| && 6 * (first / 6 + i) + 6 <= |all|
    requires all[6 * (first / 6 + i)..6 * (first / 6 + i) + 6] == six
    ensures Contributes(Piece(Zeros(26) + six, first, last, i), all, Begin(first, last), last, first / 6 + i)
  {
    if i == 0 {
      FirstPiece(six, all, first, last);
    } else if i < last / 6 - first / 6 {
      MiddleContributes(six, all, Begin(first, last), last, first / 6 + i);
    } else {
      LastContributes(six, all, Begin(first, last), last, first / 6 + i);
    }
  }

  lemma FirstPiece(six: string, all: string, first: Position, last: Position)
    requires |six| == 6 && AllBits(six) && first <= last < |all| && 6 * (first / 6) + 6 <= |all|
    requires all[6 * (first / 6)..6 * (first / 6) + 6] == six
    ensures Contributes(Piece(Zeros(26) + six, first, last, 0), all, Begin(first, last), last, first / 6)
  {
    var w := Zeros(26) + six;
    if last - first <= 31 {
      FirstIsKept(w, first, last);
      FirstContributes(six, all, first, last, first / 6);
    } else {
      FirstIsLost(w, first, last);
      NothingContributes(all, Begin(first, last), last, first / 6);
    }
  }

  lemma FirstIsKept(w: string, first: Position, last: Position)
    requires IsWord(w) && first <= last && last - first <= 31
    ensures Begin(first, last) == first && Piece(w, first, last, 0) == Shr(Shl(w, 26 + first % 6), 31 - (last - first))
  {
  }

  lemma NothingContributes(all: string, first: nat, last: nat, c: nat)
    requires first <= last < |all| && last - first <= 31 && 6 * c + 6 <= first
    ensures Contributes(Zeros(32), all, first, last, c)
  {
  }

  // ---------- all characters of a range ----------

  /** What becomes of a word with the character number `i`; one beyond the end changes nothing. */
  function Takes(word: Word, ws: seq<Word>, first: Position, last: Position, i: nat): (r: Word)
    requires i <= last / 6 - first / 6
  {
    if first / 6 + i < |ws| then Or(word, Piece(ws[first / 6 + i], first, last, i)) else word
  }

  /** The first `n` characters of a range, shifted and or-ed. */
  function Gathered(ws: seq<Word>, first: Position, last: Position, n: nat): (word: Word)
    requires n > 0 ==> n - 1 <= last / 6 - first / 6
  {
    if n == 0 then Zeros(32) else Takes(Gathered(ws, first, last, n - 1), ws, first, last, n - 1)
  }

  /** How many characters a range reaches over. */
  function Reach(first: Position, last: Position): (n: nat)
    ensures n > 0 ==> n - 1 == last / 6 - first / 6
  {
    if last / 6 < first / 6 then 0 else last / 6 - first / 6 + 1
  }

  /** The characters of a payload, as words. */
  function Words(payload: seq<Byte>): (ws: seq<Word>)
    ensures |ws| == |payload|
  {
    seq(|payload|, c requires 0 <= c < |payload| => WordOf(Decoded(payload[c])))
  }

  /** The number made of all the characters of a range, whatever they are. */
  function Gets(payload: seq<Byte>, first: Position, last: Position): (n: nat) {
    Value(Gathered(Words(payload), first, last, Reach(first, last)))
  }

  /** Each word holds six digits, and beyond them there are zeros. */
  ghost predicate Spells(ws: seq<Word>, all: string) {
    && 6 * |ws| <= |all| && AllBits(all)
    && (forall c :: 0 <= c < |ws| ==> ws[c] == Zeros(26) + all[6 * c..6 * c + 6])
    && (forall k :: 6 * |ws| <= k < |all| ==> all[k] == '0')
  }

  lemma WordsSpell(payload: seq<Byte>, n: nat)
    requires Readable(payload)
    ensures Spells(Words(payload), Extended(payload, n))
  {
    forall c | 0 <= c < |payload| ensures Words(payload)[c] == Zeros(26) + Extended(payload, n)[6 * c..6 * c + 6] {
      CharDigits(payload, n, c);
      SixBitWord(Decoded(payload[c]));
    }
  }

  /** What has been read after `n` characters, where each stands for six bits. */
  ghost predicate SoFar(word: Word, all: string, first: Position, last: Position, n: nat) {
    first <= last < |all| && HoldsUpTo(word, all, Begin(first, last), last, 6 * (first / 6 + n))
  }

  lemma TakesOneMore(word: Word, ws: seq<Word>, all: string, first: Position, last: Position, i: nat)
    requires Spells(ws, all) && i <= last / 6 - first / 6 && SoFar(word, all, first, last, i)
    ensures SoFar(Takes(word, ws, first, last, i), all, first, last, i + 1)
  {
    var c := first / 6 + i;
    if c < |ws| {
      PieceContributes(all[6 * c..6 * c + 6], all, first, last, i);
      OrExtends(word, Piece(ws[c], first, last, i), all, Begin(first, last), last, c);
    } else {
      BeyondEnd(word, all, Begin(first, last), last, c, 6 * |ws|);
    }
  }

  lemma {:induction false} GatheredSoFar(ws: seq<Word>, all: string, first: Position, last: Position, n: nat)
    requires Spells(ws, all) && first <= last < |all| && (n > 0 ==> n - 1 <= last / 6 - first / 6)
    ensures SoFar(Gathered(ws, first, last, n), all, first, last, n)
  {
    if n > 0 {
      GatheredSoFar(ws, all, first, last, n - 1);
      TakesOneMore(Gathered(ws, first, last, n - 1), ws, all, first, last, n - 1);
    }
  }

  lemma TakesNothing(ws: seq<Word>, first: Position, last: Position)
    requires last < first && last / 6 == first / 6
    ensures Takes(Zeros(32), ws, first, last, 0) == Zeros(32)
  {
    if first / 6 < |ws| {
      FirstIsLost(ws[first / 6], first, last);
      assert Or(Zeros(32), Zeros(32)) == Zeros(32);
    }
  }

  /** Nothing is gathered in an empty range. */
  lemma GathersNothing(ws: seq<Word>, first: Position, last: Position)
    requires last < first
    ensures Gathered(ws, first, last, Reach(first, last)) == Zeros(32)
  {
    assert Gathered(ws, first, last, 0) == Zeros(32);
    if last / 6 == first / 6 {
      assert Gathered(ws, first, last, 1) == Takes(Zeros(32), ws, first, last, 0);
      TakesNothing(ws, first, last);
    }
  }

  /** Where every character stands for six bits, the number is the one in the bits of the range. */
  lemma GetsRange(payload: seq<Byte>, first: Position, last: Position)
    requires Readable(payload)
    ensures Gets(payload, first, last) == RangeRead(payload, first, last)
  {
    var ws, n := Words(payload), Reach(first, last);
    if first <= last {
      WordsSpell(payload, last + 7);
      GatheredSoFar(ws, Extended(payload, last + 7), first, last, n);
      WordIsSlice(Gathered(ws, first, last, n), Extended(payload, last + 7), Begin(first, last), last);
    } else {
      GathersNothing(ws, first, last);
      ValueOfZeros(32);
    }
  }

  /** Shift the character number `i` of a range into place. */
  method Shift(w: string, first: Position, last: Position, i: nat, processed: nat) returns (temp: string, processed': nat)
    requires IsWord(w) && i <= last / 6 - first / 6
    requires i > 0 ==> processed == 5 - first % 6 + 6 * (i - 1)
    ensures temp == Piece(w, first, last, i)
    ensures i == 0 || i < last / 6 - first / 6 ==> processed' == 5 - first % 6 + 6 * i
  {
    var size, forTimes := last - first, last / 6 - first / 6;
    temp, processed' := w, processed;
    if i == 0 {
      var remain := first % 6 + 1;
      processed' := 6 - remain;
      assert 31 - processed' == 26 + first % 6;
      temp := Shr(Shl(temp, 31 - processed'), Back(size));
    } else if i < forTimes {
      processed' := processed' + 6;
      assert size - processed' == last - 6 * (first / 6 + i) - 5 >= 0;
      temp := Shl(temp, size - processed');
    } else {
      var remain := last % 6 + 1;
      temp := Shr(temp, 6 - remain);
    }
  }

  /** The shifts so far, which the next one needs unless the payload has ended. */
  predicate Counts(processed: int, len: nat, first: Position, last: Position, i: nat) {
    0 < i <= last / 6 - first / 6 && first / 6 + i - 1 < len ==> processed == 5 - first % 6 + 6 * (i - 1)
  }

  /** The loop, over the characters as words. */
  method Gather(first: Position, last: Position, ws: seq<Word>) returns (result: Word)
    ensures result == Gathered(ws, first, last, Reach(first, last))
  {
    var processed := 0;
    result := Zeros(32);
    var from := first / 6;
    var forTimes := last / 6 - from;
    var i := 0;
    while i <= forTimes
      invariant 0 <= i <= Reach(first, last)
      invariant result == Gathered(ws, first, last, i) && Counts(processed, |ws|, first, last, i)
    {
      if |ws| > from + i {
        var temp;
        temp, processed := Shift(ws[from + i], first, last, i, processed);
        result := Or(result, temp);
      }
      i := i + 1;
    }
  }

  /** BitsToInt reads the range it is given by shifting and or-ing characters. */
  method BitsToInt(first: Position, last: Position, payload: seq<Byte>) returns (r: nat)
    ensures r == Gets(payload, first, last)
    ensures Readable(payload) ==> r == RangeRead(payload, first, last)
  {
    var result := Gather(first, last, Words(payload));
    if Readable(payload) {
      GetsRange(payload, first, last);
    }
    r := Value(result);
  }
}
