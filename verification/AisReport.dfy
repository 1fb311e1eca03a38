/** The position report: how it is encoded to a payload and parsed from one. */
module AisReport {
  import opened Common
  import opened Bits
  import opened Ais
  import opened AisBits

  // ---------- layouts ----------

  /** Where a part starts. */
  function Start(parts: seq<string>, k: nat): (n: nat)
    requires k <= |parts|
  {
    if k == 0 then 0 else Start(parts, k - 1) + |parts[k - 1]|
  }

  lemma {:induction false} StartInPrefix(parts: seq<string>, n: nat, k: nat)
    requires k <= n <= |parts|
    ensures Start(parts[..n], k) == Start(parts, k)
  {
    if k > 0 {
      StartInPrefix(parts, n, k - 1);
    }
  }

  lemma {:induction false} JoinedLength(parts: seq<string>)
    ensures |Joined(parts)| == Start(parts, |parts|)
  {
    if parts != [] {
      var n := |parts| - 1;
      JoinedLength(parts[..n]);
      StartInPrefix(parts, n, n);
    }
  }

  lemma SliceInFront(a: string, b: string, i: nat, j: nat)
    requires i <= j <= |a|
    ensures (a + b)[i..j] == a[i..j]
  {
  }

  /** Each part is found where it starts. */
  lemma {:induction false} PartAt(parts: seq<string>, k: nat)
    requires k < |parts|
    ensures Start(parts, k) + |parts[k]| <= |Joined(parts)|
    ensures Joined(parts)[Start(parts, k)..Start(parts, k) + |parts[k]|] == parts[k]
    decreases |parts|
  {
    var n := |parts| - 1;
    var init := Joined(parts[..n]);
    JoinedLength(parts[..n]);
    StartInPrefix(parts, n, k);
    if k < n {
      PartAt(parts[..n], k);
      SliceInFront(init, parts[n], Start(parts, k), Start(parts, k) + |parts[k]|);
    } else {
      assert (init + parts[n])[|init|..|init| + |parts[n]|] == parts[n];
    }
  }

  lemma {:induction false} JoinedBits(parts: seq<string>)
    requires forall i :: 0 <= i < |parts| ==> AllBits(parts[i])
    ensures AllBits(Joined(parts))
  {
    if parts != [] {
      JoinedBits(parts[..|parts| - 1]);
    }
  }

  /** What is read within the digits of a payload. */
  lemma ReadsDigits(all: string, payload: seq<Byte>, i: nat, j: nat, part: string)
    requires Readable(payload) && Dearmoured(payload) == all && i < j <= |all| && all[i..j] == part
    ensures ReadBits(payload, i, j - 1) == Value(part)
  {
    SliceInFront(all, Zeros(j + 6), i, j);
  }

  /** Reading where a part lies gives its number. */
  lemma ReadsPart(parts: seq<string>, fill: nat, payload: seq<Byte>, k: nat, i: nat, j: nat)
    requires k < |parts| && |parts[k]| > 0 && i == Start(parts, k) && j == i + |parts[k]|
    requires Readable(payload) && Dearmoured(payload) == Joined(parts) + Zeros(fill)
    ensures ReadBits(payload, i, j - 1) == Value(parts[k])
  {
    PartAt(parts, k);
    SliceInFront(Joined(parts), Zeros(fill), i, j);
    ReadsDigits(Joined(parts) + Zeros(fill), payload, i, j, parts[k]);
  }

  // ---------- the position report ----------

  /** A position report; longitude and latitude in whole units. */
  datatype Report = Report(repeatIndicator: nat, mmsi: nat, navigationalStatus: nat, rateOfTurn: int, speedOverGround: nat,
                           positionAccuracy: bool, longitude: int, latitude: int, courseOverGround: nat, trueHeading: nat,
                           timeStamp: nat, specialManoeuvre: nat, spare: nat, raimFlag: bool, commState: nat)

  /** One field of a message: its number and its width in bits. */
  datatype BitField = BitField(value: int, width: nat)

  predicate InRange(f: BitField) {
    f.width > 0 && 0 <= f.value < Pow2(f.width)
  }

  /** The widths of the fields, in the order `Encode` writes them. */
  function Width(k: nat): (w: nat)
    requires k < 16
    ensures 0 < w <= 30
  {
    [6, 2, 30, 4, 8, 10, 1, 28, 27, 12, 9, 6, 2, 3, 1, 19][k]
  }

  /** The numbers in the fields. */
  function Values(m: Report): (vs: seq<int>)
    ensures |vs| == 16
  {
    [1, m.repeatIndicator, m.mmsi, m.navigationalStatus, m.rateOfTurn, m.speedOverGround, One(m.positionAccuracy), m.longitude,
     m.latitude, m.courseOverGround, m.trueHeading, m.timeStamp, m.specialManoeuvre, m.spare, One(m.raimFlag), m.commState]
  }

  function Fields(m: Report): (fs: seq<BitField>)
    ensures |fs| == 16 && forall k :: 0 <= k < 16 ==> fs[k] == BitField(Values(m)[k], Width(k))
  {
    seq(16, k requires 0 <= k < 16 => BitField(Values(m)[k], Width(k)))
  }

  function Part(f: BitField): (s: string) {
    Padded(FormatInt(f.value), f.width)
  }

  function Parts(fs: seq<BitField>): (parts: seq<string>)
    ensures |parts| == |fs| && forall i :: 0 <= i < |fs| ==> parts[i] == Part(fs[i])
  {
    seq(|fs|, i requires 0 <= i < |fs| => Part(fs[i]))
  }

  /** No field is negative or too large; the rate of turn is an int8. */
  predicate Encodable(m: Report) {
    && m.rateOfTurn < 128
    && forall i :: 0 <= i < 16 ==> InRange(Fields(m)[i])
  }

  /** The digits of a report. */
  function Digits(m: Report): (s: string)
  {
    Joined(Parts(Fields(m)))
  }

  method WriteField(f: BitField) returns (str: string)
    ensures str == Part(f)
  {
    str := Field(f.value, f.width);
  }

  lemma JoinedOneMore(parts: seq<string>, i: nat)
    requires i < |parts|
    ensures Joined(parts[..i + 1]) == Joined(parts[..i]) + parts[i]
  {
    assert parts[..i + 1][..i] == parts[..i];
  }

  method Write(fs: seq<BitField>) returns (sbinary: string)
    ensures sbinary == Joined(Parts(fs))
  {
    sbinary := "";
    for i := 0 to |fs|
      invariant sbinary == Joined(Parts(fs)[..i])
    {
      var str := WriteField(fs[i]);
      JoinedOneMore(Parts(fs), i);
      sbinary := sbinary + str;
    }
    assert Parts(fs)[..|fs|] == Parts(fs);
  }

  /** The payload part of `Encode`; a message with another identifier is an error. */
  method EncodePayload(messageId: nat, m: Report, fill: nat) returns (r: Option<seq<Byte>>)
    requires Groupable(Digits(m), fill)
    ensures r.Some? <==> messageId == 1
    ensures r.Some? ==> r.value == Payload(Digits(m), fill)
  {
    if messageId != 1 {
      return None;
    }
    var sbinary := Write(Fields(m));
    var data := Armour(sbinary, fill);
    return Some(data);
  }

  /** Conversions to signed numbers. */
  function Int8(x: nat): (r: int) { if x % 256 >= 128 then x % 256 - 256 else x % 256 }

  function Int32(x: nat): (r: int) {
    if x % 0x1_0000_0000 >= 0x8000_0000 then x % 0x1_0000_0000 - 0x1_0000_0000 else x % 0x1_0000_0000
  }

  /** The report made of what a reader of bit ranges gives; `last` is the end of the last range. */
  function ReportBy(read: (Position, Position) -> nat, last: Position): (m: Report) {
    Report(read(6, 7), read(8, 37), read(38, 41), Int8(read(42, 49)), read(50, 59), read(60, 60) == 1,
           Int32(16 * read(61, 88)) / 16, Int32(32 * read(89, 115)) / 32, read(116, 127), read(128, 136),
           read(137, 142), read(143, 144), read(145, 147), read(148, 148) == 1, read(149, last))
  }

  function Reader(payload: seq<Byte>): (read: (Position, Position) -> nat) {
    (i: Position, j: Position) => Gets(payload, i, j)
  }

  /** What `parse` makes of a payload; its last range ends with the first bit of the last character. */
  function Parsed(payload: seq<Byte>): (r: Option<Report>)
    requires 0 < |payload| < LIMIT / 6
  {
    if Decoded(payload[0]) != 1 then None else Some(ReportBy(Reader(payload), 6 * (|payload| - 1)))
  }

  method Parse(payload: seq<Byte>) returns (r: Option<Report>)
    requires 0 < |payload| < LIMIT / 6
    ensures r == Parsed(payload)
  {
    if Decoded(payload[0]) != 1 {
      return None;
    }
    var repeatIndicator := BitsToInt(6, 7, payload);
    var mmsi := BitsToInt(8, 37, payload);
    var navigationalStatus := BitsToInt(38, 41, payload);
    var rateOfTurn := BitsToInt(42, 49, payload);
    var speedOverGround := BitsToInt(50, 59, payload);
    var positionAccuracy := BitsToInt(60, 60, payload);
    var longitude := BitsToInt(61, 88, payload);
    var latitude := BitsToInt(89, 115, payload);
    var courseOverGround := BitsToInt(116, 127, payload);
    var trueHeading := BitsToInt(128, 136, payload);
    var timeStamp := BitsToInt(137, 142, payload);
    var specialManoeuvre := BitsToInt(143, 144, payload);
    var spare := BitsToInt(145, 147, payload);
    var raimFlag := BitsToInt(148, 148, payload);
    var commState := BitsToInt(149, 6 * (|payload| - 1), payload);
    return Some(Report(repeatIndicator, mmsi, navigationalStatus, Int8(rateOfTurn), speedOverGround, positionAccuracy == 1,
                       Int32(16 * longitude) / 16, Int32(32 * latitude) / 32, courseOverGround, trueHeading, timeStamp,
                       specialManoeuvre, spare, raimFlag == 1, commState));
  }

  /** Where the fields of a report lie. */
  lemma ReportStarts(p: seq<string>)
    requires |p| == 16 && forall k :: 0 <= k < 16 ==> |p[k]| == Width(k)
    ensures Start(p, 1) == 6 && Start(p, 2) == 8 && Start(p, 3) == 38 && Start(p, 4) == 42 && Start(p, 5) == 50
    ensures Start(p, 6) == 60 && Start(p, 7) == 61 && Start(p, 8) == 89 && Start(p, 9) == 116 && Start(p, 10) == 128
    ensures Start(p, 11) == 137 && Start(p, 12) == 143 && Start(p, 13) == 145 && Start(p, 14) == 148
    ensures Start(p, 15) == 149 && Start(p, 16) == 168
  {
    assert Start(p, 0) == 0;
    assert Start(p, 1) == 6;
    assert Start(p, 2) == 8;
    assert Start(p, 3) == 38;
    assert Start(p, 4) == 42;
    assert Start(p, 5) == 50;
    assert Start(p, 6) == 60;
    assert Start(p, 7) == 61;
    assert Start(p, 8) == 89;
    assert Start(p, 9) == 116;
    assert Start(p, 10) == 128;
    assert Start(p, 11) == 137;
    assert Start(p, 12) == 143;
    assert Start(p, 13) == 145;
    assert Start(p, 14) == 148;
    assert Start(p, 15) == 149;
  }

  lemma PartInRange(f: BitField)
    requires InRange(f)
    ensures |Part(f)| == f.width && AllBits(Part(f)) && Value(Part(f)) == f.value
  {
    FieldInRange(f.value, f.width);
  }

  lemma PartsInRange(m: Report, k: nat)
    requires Encodable(m) && k < 16
    ensures |Parts(Fields(m))[k]| == Width(k) > 0
    ensures AllBits(Parts(Fields(m))[k]) && Value(Parts(Fields(m))[k]) == Values(m)[k]
  {
    var f := Fields(m)[k];
    assert InRange(f);
    PartInRange(f);
  }

  lemma PartsFit(m: Report)
    requires Encodable(m)
    ensures forall k :: 0 <= k < 16 ==>
                          && |Parts(Fields(m))[k]| == Width(k) > 0 && AllBits(Parts(Fields(m))[k])
                          && Value(Parts(Fields(m))[k]) == Values(m)[k]
  {
    forall k | 0 <= k < 16
      ensures |Parts(Fields(m))[k]| == Width(k) > 0 && AllBits(Parts(Fields(m))[k])
      ensures Value(Parts(Fields(m))[k]) == Values(m)[k]
    {
      PartsInRange(m, k);
    }
  }

  lemma DigitsOf(p: seq<string>)
    requires |p| == 16 && forall k :: 0 <= k < 16 ==> |p[k]| == Width(k) && AllBits(p[k])
    ensures |Joined(p)| == 168 && AllBits(Joined(p)) && Joined(p)[149..168] == p[15]
  {
    ReportStarts(p);
    JoinedLength(p);
    JoinedBits(p);
    PartAt(p, 15);
  }

  /** A report that fits has 168 digits. */
  lemma ReportDigits(m: Report)
    requires Encodable(m)
    ensures |Digits(m)| == 168 && AllBits(Digits(m))
    ensures Digits(m)[149..168] == Part(BitField(m.commState, 19))
  {
    PartsFit(m);
    DigitsOf(Parts(Fields(m)));
  }

  /** A number of this width lies in the digits from here on. */
  ghost predicate LiesAt(digits: string, i: nat, w: nat, x: int) {
    i + w <= |digits| && Value(digits[i..i + w]) == x
  }

  lemma PartLies(p: seq<string>, d: string, k: nat, x: int)
    requires d == Joined(p) && k < |p| && Value(p[k]) == x
    ensures LiesAt(d, Start(p, k), |p[k]|, x)
  {
    PartAt(p, k);
  }

  lemma PartsLie(p: seq<string>, d: string, v: seq<int>)
    requires d == Joined(p) && |p| == |v| && forall k :: 0 <= k < |p| ==> Value(p[k]) == v[k]
    ensures forall k :: 0 <= k < |p| ==> LiesAt(d, Start(p, k), |p[k]|, v[k])
  {
    forall k | 0 <= k < |p| ensures LiesAt(d, Start(p, k), |p[k]|, v[k]) {
      PartLies(p, d, k, v[k]);
    }
  }

  /** Where numbers of the widths of a report lie. */
  lemma LieInPlace(p: seq<string>, d: string, v: seq<int>)
    requires |p| == |v| == 16 && forall k :: 0 <= k < 16 ==> |p[k]| == Width(k)
    requires forall k :: 0 <= k < 16 ==> LiesAt(d, Start(p, k), |p[k]|, v[k])
    ensures LiesAt(d, 0, 6, v[0]) && LiesAt(d, 6, 2, v[1]) && LiesAt(d, 8, 30, v[2]) && LiesAt(d, 38, 4, v[3])
    ensures LiesAt(d, 42, 8, v[4]) && LiesAt(d, 50, 10, v[5]) && LiesAt(d, 60, 1, v[6]) && LiesAt(d, 61, 28, v[7])
    ensures LiesAt(d, 89, 27, v[8]) && LiesAt(d, 116, 12, v[9]) && LiesAt(d, 128, 9, v[10]) && LiesAt(d, 137, 6, v[11])
    ensures LiesAt(d, 143, 2, v[12]) && LiesAt(d, 145, 3, v[13]) && LiesAt(d, 148, 1, v[14]) && LiesAt(d, 149, 19, v[15])
  {
    ReportStarts(p);
    assert Start(p, 0) == 0;
    assert LiesAt(d, Start(p, 0), |p[0]|, v[0]) && LiesAt(d, Start(p, 1), |p[1]|, v[1]);
    assert LiesAt(d, Start(p, 2), |p[2]|, v[2]) && LiesAt(d, Start(p, 3), |p[3]|, v[3]);
    assert LiesAt(d, Start(p, 4), |p[4]|, v[4]) && LiesAt(d, Start(p, 5), |p[5]|, v[5]);
    assert LiesAt(d, Start(p, 6), |p[6]|, v[6]) && LiesAt(d, Start(p, 7), |p[7]|, v[7]);
    assert LiesAt(d, Start(p, 8), |p[8]|, v[8]) && LiesAt(d, Start(p, 9), |p[9]|, v[9]);
    assert LiesAt(d, Start(p, 10), |p[10]|, v[10]) && LiesAt(d, Start(p, 11), |p[11]|, v[11]);
    assert LiesAt(d, Start(p, 12), |p[12]|, v[12]) && LiesAt(d, Start(p, 13), |p[13]|, v[13]);
    assert LiesAt(d, Start(p, 14), |p[14]|, v[14]) && LiesAt(d, Start(p, 15), |p[15]|, v[15]);
  }

  /** Every field of a report that fits lies where section 3.1 of Annex 8 of ITU-R M.1371-5 has it. */
  lemma FieldsLie(m: Report, d: string)
    requires Encodable(m) && d == Digits(m)
    ensures LiesAt(d, 0, 6, 1) && LiesAt(d, 6, 2, m.repeatIndicator) && LiesAt(d, 8, 30, m.mmsi)
    ensures LiesAt(d, 38, 4, m.navigationalStatus) && LiesAt(d, 42, 8, m.rateOfTurn) && LiesAt(d, 50, 10, m.speedOverGround)
    ensures LiesAt(d, 60, 1, One(m.positionAccuracy)) && LiesAt(d, 61, 28, m.longitude) && LiesAt(d, 89, 27, m.latitude)
    ensures LiesAt(d, 116, 12, m.courseOverGround) && LiesAt(d, 128, 9, m.trueHeading) && LiesAt(d, 137, 6, m.timeStamp)
    ensures LiesAt(d, 143, 2, m.specialManoeuvre) && LiesAt(d, 145, 3, m.spare) && LiesAt(d, 148, 1, One(m.raimFlag))
    ensures LiesAt(d, 149, 19, m.commState)
  {
    PartsFit(m);
    PartsLie(Parts(Fields(m)), d, Values(m));
    LieInPlace(Parts(Fields(m)), d, Values(m));
  }

  lemma ReaderIsReadBits(payload: seq<Byte>, i: Position, j: Position)
    requires Readable(payload) && i <= j <= i + 31
    ensures Reader(payload)(i, j) == ReadBits(payload, i, j)
  {
    GetsRange(payload, i, j);
  }

  /** A reader that finds the numbers `v` where a report has its fields. */
  ghost predicate Finds(read: (Position, Position) -> nat, v: seq<int>)
    requires |v| == 16
  {
    && read(6, 7) == v[1] && read(8, 37) == v[2] && read(38, 41) == v[3] && read(42, 49) == v[4] && read(50, 59) == v[5]
    && read(60, 60) == v[6] && read(61, 88) == v[7] && read(89, 115) == v[8] && read(116, 127) == v[9]
    && read(128, 136) == v[10] && read(137, 142) == v[11] && read(143, 144) == v[12] && read(145, 147) == v[13]
    && read(148, 148) == v[14]
  }

  ghost predicate FindsAt(read: (Position, Position) -> nat, i: nat, w: nat, x: int) {
    w > 0 && i + w <= LIMIT && read(i, i + w - 1) == x
  }

  lemma FindsInPlace(read: (Position, Position) -> nat, p: seq<string>, v: seq<int>)
    requires |p| == |v| == 16 && forall k :: 0 <= k < 16 ==> |p[k]| == Width(k)
    requires forall k :: 0 <= k < 16 ==> FindsAt(read, Start(p, k), |p[k]|, v[k])
    ensures Finds(read, v)
  {
    ReportStarts(p);
    assert FindsAt(read, Start(p, 1), |p[1]|, v[1]) && FindsAt(read, Start(p, 2), |p[2]|, v[2]);
    assert FindsAt(read, Start(p, 3), |p[3]|, v[3]) && FindsAt(read, Start(p, 4), |p[4]|, v[4]);
    assert FindsAt(read, Start(p, 5), |p[5]|, v[5]) && FindsAt(read, Start(p, 6), |p[6]|, v[6]);
    assert FindsAt(read, Start(p, 7), |p[7]|, v[7]) && FindsAt(read, Start(p, 8), |p[8]|, v[8]);
    assert FindsAt(read, Start(p, 9), |p[9]|, v[9]) && FindsAt(read, Start(p, 10), |p[10]|, v[10]);
    assert FindsAt(read, Start(p, 11), |p[11]|, v[11]) && FindsAt(read, Start(p, 12), |p[12]|, v[12]);
    assert FindsAt(read, Start(p, 13), |p[13]|, v[13]) && FindsAt(read, Start(p, 14), |p[14]|, v[14]);
  }

  /** Such a reader gives the report, but for signs and the last field. */
  lemma ReportByFields(read: (Position, Position) -> nat, last: Position, m: Report)
    requires Encodable(m) && Finds(read, Values(m))
    ensures ReportBy(read, last) ==
            m.(longitude := Signed(m.longitude, 0x800_0000), latitude := Signed(m.latitude, 0x400_0000),
               commState := read(149, last))
  {
    RangesOf(m);
    SignExtension(m.longitude, m.latitude);
  }

  /** Without fill the last field is read without its last five bits. */
  lemma ReadsCutShort(digits: string, payload: seq<Byte>, s: string)
    requires Readable(payload) && Dearmoured(payload) == digits && |digits| == 168 && digits[149..168] == s
    ensures ReadBits(payload, 149, 162) == Value(s) / 32
  {
    assert digits[149..163] == s[..14];
    ReadsDigits(digits, payload, 149, 163, s[..14]);
    FiveFewer(s);
  }

  /** With a group of fill the last field is read with one fill bit too many. */
  lemma ReadsTooFar(digits: string, payload: seq<Byte>, s: string)
    requires Readable(payload) && Dearmoured(payload) == digits + Zeros(6) && |digits| == 168 && digits[149..168] == s
    ensures ReadBits(payload, 149, 168) == 2 * Value(s)
  {
    assert (digits + Zeros(6))[149..169] == s + "0";
    ReadsDigits(digits + Zeros(6), payload, 149, 169, s + "0");
    ValueOfDropped(s);
  }

  lemma FiveFewer(s: string)
    requires |s| == 19
    ensures Value(s[..14]) == Value(s) / 32
  {
    assert s[..18][..17] == s[..17] && s[..17][..16] == s[..16] && s[..16][..15] == s[..15] && s[..15][..14] == s[..14];
    ValueOfDropped(s);
    ValueOfDropped(s[..18]);
    ValueOfDropped(s[..17]);
    ValueOfDropped(s[..16]);
    ValueOfDropped(s[..15]);
  }

  /** A number of `w` bits taken as signed. */
  function Signed(x: int, half: int): (r: int) {
    if x >= half then x - 2 * half else x
  }

  lemma SignExtension(lon: nat, lat: nat)
    requires lon < 0x1000_0000 && lat < 0x800_0000
    ensures Int32(16 * lon) / 16 == Signed(lon, 0x800_0000)
    ensures Int32(32 * lat) / 32 == Signed(lat, 0x400_0000)
  {
  }

  /** The report as it comes back. */
  function Received(m: Report, fill: nat): (r: Report) {
    m.(longitude := Signed(m.longitude, 0x800_0000), latitude := Signed(m.latitude, 0x400_0000),
       commState := if fill == 0 then m.commState / 32 else 2 * m.commState)
  }

  lemma ReaderFindsOne(p: seq<string>, x: nat, fill: nat, payload: seq<Byte>, k: nat)
    requires k < |p| && 0 < |p[k]| <= 32 && Value(p[k]) == x
    requires Readable(payload) && |payload| < LIMIT / 6 && Dearmoured(payload) == Joined(p) + Zeros(fill)
    ensures FindsAt(Reader(payload), Start(p, k), |p[k]|, x)
  {
    var i, w := Start(p, k), |p[k]|;
    PartAt(p, k);
    assert i + w <= 6 * |payload|;
    ReadsPart(p, fill, payload, k, i, i + w);
    ReaderIsReadBits(payload, i, i + w - 1);
  }

  lemma ReaderFinds(p: seq<string>, v: seq<int>, fill: nat, payload: seq<Byte>)
    requires |p| == |v| && forall k :: 0 <= k < |p| ==> 0 < |p[k]| <= 32 && Value(p[k]) == v[k]
    requires Readable(payload) && |payload| < LIMIT / 6 && Dearmoured(payload) == Joined(p) + Zeros(fill)
    ensures forall k :: 0 <= k < |p| ==> FindsAt(Reader(payload), Start(p, k), |p[k]|, v[k])
  {
    forall k | 0 <= k < |p| ensures FindsAt(Reader(payload), Start(p, k), |p[k]|, v[k]) {
      ReaderFindsOne(p, v[k], fill, payload, k);
    }
  }

  lemma ReportOfDigits(m: Report, fill: nat, payload: seq<Byte>, last: Position)
    requires Encodable(m) && Readable(payload) && |payload| < LIMIT / 6 && Dearmoured(payload) == Digits(m) + Zeros(fill)
    ensures ReportBy(Reader(payload), last) ==
            m.(longitude := Signed(m.longitude, 0x800_0000), latitude := Signed(m.latitude, 0x400_0000),
               commState := Reader(payload)(149, last))
  {
    var p, v, read := Parts(Fields(m)), Values(m), Reader(payload);
    PartsFit(m);
    ReaderFinds(p, v, fill, payload);
    FindsInPlace(read, p, v);
    ReportByFields(read, last, m);
  }

  /** What `parse` gives for a payload whose digits are those of a report. */
  lemma ParsedDigits(m: Report, fill: nat, payload: seq<Byte>)
    requires Encodable(m) && (fill == 0 || fill == 6)
    requires Readable(payload) && Dearmoured(payload) == Digits(m) + Zeros(fill)
    ensures |payload| == 28 + fill / 6 && Parsed(payload) == Some(Received(m, fill))
  {
    LastField(m, fill, payload);
    ReportOfDigits(m, fill, payload, 6 * (|payload| - 1));
    PartsInRange(m, 0);
    FirstCharacter(Parts(Fields(m)), fill, payload);
  }

  lemma RangesOf(m: Report)
    requires Encodable(m)
    ensures m.longitude < 0x1000_0000 && m.latitude < 0x800_0000
  {
    assert InRange(Fields(m)[7]) && InRange(Fields(m)[8]);
    assert Pow2(10) == 1024;
    assert Pow2(20) == 1048576;
    assert Pow2(27) == 0x800_0000;
  }

  lemma LastField(m: Report, fill: nat, payload: seq<Byte>)
    requires Encodable(m) && (fill == 0 || fill == 6)
    requires Readable(payload) && Dearmoured(payload) == Digits(m) + Zeros(fill)
    ensures |payload| == 28 + fill / 6
    ensures Reader(payload)(149, 6 * (|payload| - 1)) == if fill == 0 then m.commState / 32 else 2 * m.commState
  {
    ReportDigits(m);
    PartsInRange(m, 15);
    var s := Part(BitField(m.commState, 19));
    if fill == 0 {
      assert Digits(m) + Zeros(0) == Digits(m);
      ReadsCutShort(Digits(m), payload, s);
      ReaderIsReadBits(payload, 149, 162);
    } else {
      ReadsTooFar(Digits(m), payload, s);
      ReaderIsReadBits(payload, 149, 168);
    }
  }

  /** The first character is the message identifier. */
  lemma FirstCharacter(p: seq<string>, fill: nat, payload: seq<Byte>)
    requires |p| > 0 && |p[0]| == 6 && Value(p[0]) == 1
    requires Readable(payload) && payload != [] && Dearmoured(payload) == Joined(p) + Zeros(fill)
    ensures Decoded(payload[0]) == 1
  {
    DearmouredAt(payload, 0);
    PartAt(p, 0);
    SliceInFront(Joined(p), Zeros(fill), 0, 6);
  }

  /** A payload that is parsed as this report. */
  ghost predicate ParsedAs(payload: seq<Byte>, m: Report) {
    0 < |payload| < LIMIT / 6 && Parsed(payload) == Some(m)
  }

  /** What `Encode` makes of a report, when the fill bits complete the last group. */
  ghost predicate Sent(m: Report, fill: nat, data: seq<Byte>) {
    Groupable(Digits(m), fill) && (|Digits(m)| + fill) % 6 == 0 && data == Payload(Digits(m), fill)
  }

  lemma FillOf(digits: string, fill: nat)
    requires |digits| == 168 && Groupable(digits, fill) && (|digits| + fill) % 6 == 0
    ensures fill == 0 || fill == 6
  {
  }

  /**
   Encoding a report that fits and parsing the payload gives back every field
   but the last, longitude and latitude as signed numbers.
   */
  lemma RoundTrip(m: Report, fill: nat, data: seq<Byte>)
    requires Encodable(m) && Sent(m, fill, data)
    ensures ParsedAs(data, Received(m, fill))
  {
    ReportDigits(m);
    FillOf(Digits(m), fill);
    DearmourUndoes(Digits(m), fill);
    ParsedDigits(m, fill, data);
  }

  /** So a report survives exactly when its coordinates are below their sign bits and its last field is zero. */
  lemma RoundTripIff(m: Report, fill: nat, data: seq<Byte>)
    requires Encodable(m) && Sent(m, fill, data)
    ensures ParsedAs(data, m) <==> m.longitude < 0x800_0000 && m.latitude < 0x400_0000 && m.commState == 0
  {
    RoundTrip(m, fill, data);
  }

  /** What is read in a range fits in it. */
  lemma ReadBitsBelow(payload: seq<Byte>, i: nat, j: nat)
    requires Readable(payload) && i <= j
    ensures ReadBits(payload, i, j) < Pow2(j + 1 - i)
  {
    ValueBelow(Extended(payload, j + 7)[i..j + 1]);
  }

  /**
   What the parser makes of any payload whose characters stand for six bits:
   numbers in their ranges, three of them as signed numbers of their widths,
   and flags for single bits.
   */
  lemma ParsedMeans(payload: seq<Byte>)
    requires Readable(payload) && 0 < |payload| < LIMIT / 6 && Parsed(payload).Some?
    ensures var m := Parsed(payload).value;
      && m.repeatIndicator == ReadBits(payload, 6, 7) && m.mmsi == ReadBits(payload, 8, 37)
      && m.navigationalStatus == ReadBits(payload, 38, 41) && m.rateOfTurn == Signed(ReadBits(payload, 42, 49), 128)
      && m.speedOverGround == ReadBits(payload, 50, 59) && (m.positionAccuracy <==> ReadBits(payload, 60, 60) == 1)
      && m.longitude == Signed(ReadBits(payload, 61, 88), 0x800_0000) && m.latitude == Signed(ReadBits(payload, 89, 115), 0x400_0000)
      && m.courseOverGround == ReadBits(payload, 116, 127) && m.trueHeading == ReadBits(payload, 128, 136)
      && m.timeStamp == ReadBits(payload, 137, 142) && m.specialManoeuvre == ReadBits(payload, 143, 144)
      && m.spare == ReadBits(payload, 145, 147) && (m.raimFlag <==> ReadBits(payload, 148, 148) == 1)
  {
    var read := Reader(payload);
    forall i: Position, j: Position | i <= j <= i + 31 ensures read(i, j) == ReadBits(payload, i, j) {
      ReaderIsReadBits(payload, i, j);
    }
    SignedRanges(payload);
    ReadsMean(read, 6 * (|payload| - 1));
  }

  lemma SignedRanges(payload: seq<Byte>)
    requires Readable(payload)
    ensures ReadBits(payload, 42, 49) < 256 && ReadBits(payload, 61, 88) < 0x1000_0000 && ReadBits(payload, 89, 115) < 0x800_0000
  {
    ReadBitsBelow(payload, 42, 49);
    ReadBitsBelow(payload, 61, 88);
    ReadBitsBelow(payload, 89, 115);
    assert Pow2(8) == 256;
    assert Pow2(18) == 1024 * Pow2(8);
    assert Pow2(27) == 512 * Pow2(18);
    assert Pow2(28) == 2 * Pow2(27);
  }

  lemma ReadsMean(read: (Position, Position) -> nat, last: Position)
    requires read(42, 49) < 256 && read(61, 88) < 0x1000_0000 && read(89, 115) < 0x800_0000
    ensures var m := ReportBy(read, last);
      && m.rateOfTurn == Signed(read(42, 49), 128)
      && m.longitude == Signed(read(61, 88), 0x800_0000) && m.latitude == Signed(read(89, 115), 0x400_0000)
  {
    SignExtension(read(61, 88), read(89, 115));
  }

  /** The last field of a payload of any length: nothing in a short one, and at most the last 32 bits of a long one. */
  lemma LastFieldOfAny(payload: seq<Byte>)
    requires Readable(payload) && 0 < |payload| < LIMIT / 6 && Parsed(payload).Some?
    ensures var last, c := 6 * (|payload| - 1), Parsed(payload).value.commState;
      if |payload| < 26 then c == 0
      else if |payload| <= 31 then c == ReadBits(payload, 149, last)
      else c == ReadBits(payload, last - 31, last)
  {
    var last := 6 * (|payload| - 1);
    assert Parsed(payload).value.commState == RangeRead(payload, 149, last) by {
      GetsRange(payload, 149, last);
    }
    if |payload| >= 26 {
      assert Begin(149, last) == if |payload| <= 31 then 149 else last - 31;
    }
  }

  lemma ReceivedWithout(m: Report)
    requires m.longitude < 0x800_0000 && m.latitude < 0x400_0000 && m.commState < 32
    ensures Received(m, 0) == m.(commState := 0)
  {
  }

  /** Without fill, a last field below 32 comes back as zero. */
  lemma LastBitsAreLost(m: Report, data: seq<Byte>)
    requires Encodable(m) && m.longitude < 0x800_0000 && m.latitude < 0x400_0000 && m.commState < 32
    requires Sent(m, 0, data)
    ensures ParsedAs(data, m.(commState := 0))
  {
    RoundTrip(m, 0, data);
    ReceivedWithout(m);
  }

  /** A report to which this happens: all zero, but for the last bit of its last field. */
  const LAST_BIT: Report := Report(0, 0, 0, 0, 0, false, 0, 0, 0, 0, 0, 0, 0, false, 1)

  lemma LastBitFits()
    ensures Encodable(LAST_BIT)
  {
    forall k | 0 <= k < 16 ensures InRange(Fields(LAST_BIT)[k]) {
      assert Values(LAST_BIT)[k] <= 1;
      Pow2Exceeds(Width(k));
    }
  }

  lemma {:induction false} Pow2Exceeds(n: nat)
    requires n > 0
    ensures Pow2(n) >= 2
  {
    if n > 1 {
      Pow2Exceeds(n - 1);
    }
  }
}
