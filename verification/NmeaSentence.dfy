/**
 A whole GLL sentence: start character, two-letter talker, format, fields and
 checksum, from a record to the wire and back.
 */
module NmeaSentence {
  import opened Common
  import opened Texts
  import opened NmeaFields

  /** The record that is encoded, and that parsing fills; one character is one byte. */
  datatype Sentence<F> = Sentence(sos: string, talker: string, format: string, cells: seq<Option<Cell<F>>>)

  /** What parsing comes to.  `Ais` sentences go through a branch of their own. */
  datatype Outcome<T> = Ok(value: T) | Error | Panic | Ais

  // ---------- checksum ----------

  function Byte(c: char): (b: bv8) {
    (c as int % 256) as bv8
  }

  function Xor(s: string): (b: bv8) {
    if s == "" then 0 else Xor(s[..|s| - 1]) ^ Byte(s[|s| - 1])
  }

  /** How many characters have this bit. */
  function WithBit(s: string, bit: bv8): (n: nat) {
    if s == "" then 0 else WithBit(s[..|s| - 1], bit) + One(Byte(s[|s| - 1]) & bit != 0)
  }

  lemma BitOfXor(a: bv8, b: bv8, bit: bv8)
    requires bit != 0 && bit & (bit - 1) == 0
    ensures (a ^ b) & bit != 0 <==> (a & bit != 0) != (b & bit != 0)
  {
  }

  /** Each bit of the sum is the parity of that bit over the characters. */
  lemma {:induction false} XorIsParity(s: string, bit: bv8)
    requires bit != 0 && bit & (bit - 1) == 0
    ensures Xor(s) & bit != 0 <==> WithBit(s, bit) % 2 == 1
  {
    if s != "" {
      var n := |s| - 1;
      XorIsParity(s[..n], bit);
      BitOfXor(Xor(s[..n]), Byte(s[n]), bit);
    }
  }

  predicate IsHex(c: char) {
    '0' <= c <= '9' || 'A' <= c <= 'F'
  }

  function HexDigit(d: nat): (c: char)
    requires d < 16
    ensures IsHex(c)
  {
    if d < 10 then '0' + d as char else 'A' + (d - 10) as char
  }

  /** Two upper-case digits. */
  function HexOf(n: nat): (s: string)
    requires n < 256
    ensures |s| == 2 && IsHex(s[0]) && IsHex(s[1])
  {
    [HexDigit(n / 16), HexDigit(n % 16)]
  }

  /** The value of a hexadecimal digit. */
  function HexValue(c: char): (d: nat)
    requires IsHex(c)
  {
    if c <= '9' then (c - '0') as nat else (c - 'A') as nat + 10
  }

  lemma HexDenotes(n: nat)
    requires n < 256
    ensures 16 * HexValue(HexOf(n)[0]) + HexValue(HexOf(n)[1]) == n
  {
  }

  function Hex(b: bv8): (s: string)
    ensures |s| == 2 && IsHex(s[0]) && IsHex(s[1])
  {
    HexOf(b as nat)
  }

  /** What the checksum is over: all but the start character. */
  function Tail(raw: string): (s: string) {
    if raw == "" then "" else raw[1..]
  }

  method Checksum(raw: string) returns (s: string)
    ensures s == "*" + Hex(Xor(Tail(raw)))
  {
    var sum, body := 0, Tail(raw);
    for i := 0 to |body|
      invariant sum == Xor(body[..i])
    {
      assert body[..i + 1][..i] == body[..i];
      sum := sum ^ Byte(body[i]);
    }
    assert body[..|body|] == body;
    return "*" + Hex(sum);
  }

  /** The check on arrival stops at the first checksum separator. */
  method SumOk(raw: string, checksum: string) returns (ok: bool)
    ensures ok == SumFits(raw, checksum)
  {
    var sum, body, i := 0, Tail(raw), 0;
    while i < |body| && body[i] != '*'
      invariant 0 <= i <= |body|
      invariant sum == Xor(body[..i]) && Without(body[..i], '*')
    {
      assert body[..i + 1][..i] == body[..i];
      sum := sum ^ Byte(body[i]);
      i := i + 1;
    }
    FirstPiece(body[..i], body[i..], '*');
    assert body[..i] + body[i..] == body;
    return Hex(sum) == checksum;
  }

  predicate SumFits(raw: string, checksum: string) {
    Hex(Xor(Split(Tail(raw), '*')[0])) == checksum
  }

  function Upper(s: string): (r: string)
    ensures |r| == |s|
  {
    seq(|s|, i requires 0 <= i < |s| => if 'a' <= s[i] <= 'z' then s[i] - 'a' + 'A' else s[i])
  }

  // ---------- the envelope ----------

  const AIS_TALKERS: seq<string> := ["AB", "AD", "AI", "AN", "AR", "AS", "AT", "AX", "BS", "SA"]

  predicate AisToken(token: string) {
    exists k, i :: 0 <= k < |AIS_TALKERS| && 0 <= i <= |token| - 4 && NamesAis(token, AIS_TALKERS[k], i)
  }

  predicate NamesAis(token: string, talker: string, i: nat)
    requires i <= |token| - 4
  {
    token[i..i + 4] == talker + "VD"
  }

  datatype Frame = Frame(talker: string, fields: seq<string>, checksum: string)

  /** What follows the start character. */
  function Started(raw: string): (s: string)
    requires '$' in raw || '!' in raw
  {
    SplitFinds(raw, '$');
    SplitFinds(raw, '!');
    if '!' in raw then Split(raw, '!')[1] else Split(raw, '$')[1]
  }

  /** Taking a sentence that is not from an AIS device apart. */
  function Deframed(raw: string): (r: Outcome<Frame>) {
    if |Split(raw, '*')| != 2 || ('$' !in raw && '!' !in raw) then Error
    else if AisToken(Split(raw, ',')[0]) then Ais
    else
      var s := Started(raw);
      if |s| < 3 then Panic
      else
        var fieldSum := Split(s[2..], '*');
        if |fieldSum| < 2 then Panic
        else if !SumFits(raw, Upper(fieldSum[1])) then Error
        else Ok(Frame(s[..2], Split(fieldSum[0], ','), Upper(fieldSum[1])))
  }

  function ParseGll<F>(num: Numerals<F>, raw: string): (r: Outcome<Sentence<F>>) {
    match Deframed(raw)
    case Ok(f) =>
      if f.fields == [] || f.fields[0] != "GLL" then Error
      else (
        match Parsed(num, GLL, f.fields[1..])
        case Some(cells) => Ok(Sentence("$", f.talker, f.fields[0], cells))
        case None => Error)
    case Error => Error
    case Panic => Panic
    case Ais => Ais
  }

  function Body<F>(num: Numerals<F>, s: Sentence<F>): (raw: string) {
    Encoded(num, s.sos + s.talker + s.format, s.cells)
  }

  function EncodeGll<F>(num: Numerals<F>, s: Sentence<F>): (r: Option<string>) {
    if s.format != "GLL" then None
    else Some(Body(num, s) + "*" + Hex(Xor(Tail(Body(num, s)))))
  }

  // ---------- round trip ----------

  predicate Unmarked(s: string) {
    Without(s, '*') && Without(s, '$') && Without(s, '!')
  }

  /** Text that can be a field. */
  predicate Clean(s: string) {
    s != "" && Unmarked(s) && Without(s, ',')
  }

  lemma HexIsClean(b: bv8)
    ensures Clean(Hex(b)) && Upper(Hex(b)) == Hex(b)
  {
  }

  predicate StartChar(c: char) {
    c == '$' || c == '!'
  }

  lemma RawParts(c: char, t: string, sum: string)
    ensures var raw, rest := [c] + t + "*" + sum, t + "*" + sum;
      raw == "" + [c] + rest && Tail(raw) == rest && (|rest| > 5 ==> raw[3..7] == rest[2..6])
  {
    var raw, rest := [c] + t + "*" + sum, t + "*" + sum;
    assert raw == [c] + rest;
    assert |rest| > 5 ==> raw[3..7] == rest[2..6];
  }

  lemma RestParts(talker: string, e: string, sum: string)
    requires |talker| == 2 && |e| > 3 && e[..4] == "GLL,"
    ensures var rest := talker + e + "*" + sum;
      |rest| > 5 && rest[..2] == talker && rest[2..] == e + "*" + sum && rest[2..6] == "GLL,"
  {
    var rest := talker + e + "*" + sum;
    assert rest == talker + (e + "*" + sum);
    assert rest[2..6] == e[..4];
  }

  /** The envelope gives back what was put into it, with either start character. */
  lemma FrameComesBack(c: char, talker: string, e: string)
    requires StartChar(c) && |talker| == 2 && Unmarked(talker) && Unmarked(e) && |e| > 3 && e[..4] == "GLL,"
    ensures var sum := Hex(Xor(talker + e));
      Deframed([c] + (talker + e) + "*" + sum) == Ok(Frame(talker, Split(e, ','), sum))
  {
    var t := talker + e;
    var sum := Hex(Xor(t));
    HexIsClean(Xor(t));
    RawParts(c, t, sum);
    RestParts(talker, e, sum);
    TwoPieces(e, sum, '*');
    NotAis([c] + t + "*" + sum);
    Opens(c, t, sum, t + "*" + sum, talker, e);
  }

  lemma Opens(c: char, t: string, sum: string, rest: string, talker: string, e: string)
    requires StartChar(c) && Unmarked(t) && Clean(sum) && Upper(sum) == sum && sum == Hex(Xor(t))
    requires rest == t + "*" + sum && |rest| > 5 && !AisToken(Split([c] + t + "*" + sum, ',')[0])
    requires rest[..2] == talker && Split(rest[2..], '*') == [e, sum]
    requires [c] + t + "*" + sum == "" + [c] + rest && Tail([c] + t + "*" + sum) == rest
    ensures Deframed([c] + t + "*" + sum) == Ok(Frame(talker, Split(e, ','), sum))
  {
    TwoPieces([c] + t, sum, '*');
    TwoPieces(t, sum, '*');
    TwoPieces("", rest, c);
  }

  lemma TwoPieces(s: string, t: string, c: char)
    requires Without(s, c) && Without(t, c)
    ensures Split(s + [c] + t, c) == [s, t]
  {
    SplitPlain(s, c);
    SplitAppends(s, t, c);
  }

  lemma TokenShape(raw: string)
    requires |raw| > 6 && raw[3..7] == "GLL,"
    ensures var token := Split(raw, ',')[0];
      |token| <= 6 && (|token| > 3 ==> token[3] == 'G') && (|token| > 4 ==> token[4] == 'L')
  {
    var token := Split(raw, ',')[0];
    FirstPieceIsPrefix(raw, ',');
    PiecesWithout(raw, ',');
    assert forall j :: 0 <= j < 4 ==> raw[3..7][j] == raw[3 + j];
    assert forall j :: 0 <= j < |token| ==> token[j] in token;
    assert forall j :: 0 <= j < |token| ==> token[j] == raw[j];
  }

  lemma NotAis(raw: string)
    requires |raw| > 6 && raw[3..7] == "GLL,"
    ensures !AisToken(Split(raw, ',')[0])
  {
    TokenShape(raw);
    TokenNotAis(Split(raw, ',')[0]);
  }

  lemma TokenNotAis(token: string)
    requires |token| <= 6 && (|token| > 3 ==> token[3] == 'G') && (|token| > 4 ==> token[4] == 'L')
    ensures !AisToken(token)
  {
    forall k, i | 0 <= k < |AIS_TALKERS| && 0 <= i <= |token| - 4
      ensures !NamesAis(token, AIS_TALKERS[k], i)
    {
      NotNamed(token, AIS_TALKERS[k], i);
    }
  }

  lemma NotNamed(token: string, talker: string, i: nat)
    requires i <= |token| - 4 && |token| <= 6 && |talker| == 2
    requires token[3] == 'G' && (|token| > 4 ==> token[4] == 'L')
    ensures !NamesAis(token, talker, i)
  {
    assert token[i..i + 4][2] == token[i + 2] && token[i..i + 4][3] == token[i + 3];
    assert (talker + "VD")[2] == 'V' && (talker + "VD")[3] == 'D';
  }

  /** Numbers whose text is a field that reads back. */
  ghost predicate NumbersFit<F>(num: Numerals<F>, cells: seq<Option<Cell<F>>>) {
    forall i :: 0 <= i < |cells| && cells[i].Some? && cells[i].value.Number? ==> NumberFits(num, cells[i].value.x)
  }

  ghost predicate NumberFits<F>(num: Numerals<F>, x: F) {
    Clean(num.format(x)) && num.parse(num.format(x)) == Some(x)
  }

  predicate TextsClean<F>(cells: seq<Option<Cell<F>>>) {
    forall i :: 0 <= i < |cells| && cells[i].Some? && cells[i].value.Text? ==> Clean(cells[i].value.s)
  }

  /** The records that survive the wire. */
  predicate Sendable<F>(s: Sentence<F>) {
    && s.sos == "$" && |s.talker| == 2 && Unmarked(s.talker) && s.format == "GLL"
    && TextsClean(s.cells)
  }

  ghost predicate Survives<F>(num: Numerals<F>, s: Sentence<F>) {
    && EncodeGll(num, s).Some?
    && ParseGll(num, EncodeGll(num, s).value) == Ok(s)
  }

  lemma PartsAreClean<F>(num: Numerals<F>, cells: seq<Option<Cell<F>>>)
    requires NumbersFit(num, cells) && TextsClean(cells)
    ensures AllLegible(num, cells) && Readable(num, cells)
    ensures forall k :: 0 <= k < |cells| ==> Unmarked(TextOf(num, cells[k]))
  {
  }

  /** The fields after the format, and what they start with. */
  lemma EncodedStarts<F>(num: Numerals<F>, cells: seq<Option<Cell<F>>>)
    requires |cells| >= 2 && AllLegible(num, cells)
    requires forall k :: 0 <= k < |cells| ==> Unmarked(TextOf(num, cells[k]))
    ensures var e := Encoded(num, "GLL", cells); |e| > 3 && e[..4] == "GLL," && Unmarked(e)
  {
    EncodedIsPlain(num, "GLL", cells);
    PlainStarts(num, "GLL", cells, Shipped(cells));
    assert ("GLL" + ",") == "GLL,";
    WrittenWithout(num, "GLL", cells, |cells|, '*');
    WrittenWithout(num, "GLL", cells, |cells|, '$');
    WrittenWithout(num, "GLL", cells, |cells|, '!');
  }

  /** A sendable record, started in either way, is read as that record. */
  lemma ReadAsSendable<F>(num: Numerals<F>, s: Sentence<F>, c: char)
    requires StartChar(c) && HasKinds(GLL, s.cells) && NumbersFit(num, s.cells) && Sendable(s)
    ensures ParseGll(num, EncodeGll(num, s.(sos := [c])).value) == Ok(s)
  {
    PartsAreClean(num, s.cells);
    EncodedStarts(num, s.cells);
    EncodedAfter(num, [c] + s.talker, "GLL", s.cells);
    var e := Encoded(num, "GLL", s.cells);
    var body := Body(num, s.(sos := [c]));
    assert body == [c] + (s.talker + e);
    assert Tail(body) == s.talker + e;
    FrameComesBack(c, s.talker, e);
    FieldsRoundTrip(num, "GLL", GLL, s.cells);
  }

  lemma SendableSurvives<F>(num: Numerals<F>, s: Sentence<F>)
    requires HasKinds(GLL, s.cells) && NumbersFit(num, s.cells) && Sendable(s)
    ensures Survives(num, s)
  {
    ReadAsSendable(num, s, '$');
    assert s.(sos := ['$']) == s;
  }

  /** A record that starts with an exclamation mark and is sendable otherwise comes back with a dollar sign. */
  lemma ExclamationBecomesDollar<F>(num: Numerals<F>, s: Sentence<F>)
    requires s.sos == "!" && HasKinds(GLL, s.cells) && NumbersFit(num, s.cells) && Sendable(s.(sos := "$"))
    ensures EncodeGll(num, s).Some? && ParseGll(num, EncodeGll(num, s).value) == Ok(s.(sos := "$")) && !Survives(num, s)
  {
    ReadAsSendable(num, s.(sos := "$"), '!');
    assert s.(sos := "$").(sos := ['!']) == s;
  }

  /** Whatever is read has none of the characters that what follows the start has not. */
  lemma ReadWithout<F>(num: Numerals<F>, raw: string, s: Sentence<F>, c: char)
    requires ParseGll(num, raw) == Ok(s) && Without(Started(raw), c)
    ensures Without(s.talker, c)
    ensures forall i :: 0 <= i < |s.cells| && s.cells[i].Some? && s.cells[i].value.Text? ==> Without(s.cells[i].value.s, c)
  {
    var rest := Started(raw);
    var f := Deframed(raw).value;
    assert rest == rest[..2] + rest[2..];
    PiecesWithin(rest[2..], '*', c);
    PiecesWithin(Split(rest[2..], '*')[0], ',', c);
    forall i | 0 <= i < |s.cells| && s.cells[i].Some? && s.cells[i].value.Text?
      ensures Without(s.cells[i].value.s, c)
    {
      ParsedText(num, GLL, f.fields[1..], s.cells, i, c);
    }
  }

  lemma ReadWithoutComma<F>(num: Numerals<F>, raw: string, s: Sentence<F>)
    requires ParseGll(num, raw) == Ok(s)
    ensures forall i :: 0 <= i < |s.cells| && s.cells[i].Some? && s.cells[i].value.Text? ==>
              s.cells[i].value.s != "" && Without(s.cells[i].value.s, ',')
  {
    var f := Deframed(raw).value;
    PiecesWithout(Split(Started(raw)[2..], '*')[0], ',');
    forall i | 0 <= i < |s.cells| && s.cells[i].Some? && s.cells[i].value.Text?
      ensures s.cells[i].value.s != "" && Without(s.cells[i].value.s, ',')
    {
      ParsedText(num, GLL, f.fields[1..], s.cells, i, ',');
    }
  }

  /** The start character found last is in nothing that follows it. */
  lemma StartedWithoutBang(raw: string)
    requires '$' in raw || '!' in raw
    ensures Without(Started(raw), '!')
    ensures '!' !in raw ==> Without(Started(raw), '$')
  {
    SplitFinds(raw, '$');
    SplitFinds(raw, '!');
    PiecesWithout(raw, '!');
    PiecesWithout(raw, '$');
    if '!' !in raw {
      PiecesWithin(raw, '$', '!');
    }
  }

  lemma BodyWithoutStar(body: string, sum: string)
    requires |Split(body + "*" + sum, '*')| == 2 && Without(sum, '*')
    ensures Without(body, '*')
  {
    SplitAppends(body, sum, '*');
    SplitFinds(body, '*');
  }

  lemma SurvivorIsSendable<F>(num: Numerals<F>, s: Sentence<F>)
    requires NumbersFit(num, s.cells) && Survives(num, s)
    ensures Sendable(s)
  {
    var body, raw := Body(num, s), EncodeGll(num, s).value;
    var head := s.sos + s.talker + s.format;
    HexIsClean(Xor(Tail(body)));
    BodyWithoutStar(body, Hex(Xor(Tail(body))));
    PartsWithout(num, head, s.cells, '*');
    ReadWithoutComma(num, raw, s);
    StartedWithoutBang(raw);
    ReadWithout(num, raw, s, '!');
    WrittenWithout(num, head, s.cells, |s.cells|, '!');
    ReadWithout(num, raw, s, '$');
    forall i | 0 <= i < |s.cells| && s.cells[i].Some? && s.cells[i].value.Text?
      ensures Clean(s.cells[i].value.s)
    {
      assert Without(TextOf(num, s.cells[i]), '*');
    }
  }

  /** A GLL record comes back from the wire exactly if it is sendable. */
  lemma SentenceSurvivesIff<F>(num: Numerals<F>, s: Sentence<F>)
    requires HasKinds(GLL, s.cells) && NumbersFit(num, s.cells)
    ensures Survives(num, s) <==> Sendable(s)
  {
    if Sendable(s) {
      SendableSurvives(num, s);
    }
    if Survives(num, s) {
      SurvivorIsSendable(num, s);
    }
  }
}
