/**
 Target identifiers: their string form, its reading back, and the generation of
 serial numbers.
 */
module TargetIds {
  import opened Common
  import opened Texts
  import opened Decimals

  type Int32 = x: int | -0x8000_0000 <= x < 0x8000_0000

  type Int64 = x: int | -0x8000_0000_0000_0000 <= x < 0x8000_0000_0000_0000

  datatype SensorID = SensorID(site: UInt32, eid: UInt32)

  datatype TimeSerial = TimeSerial(seconds: Int64, counter: Int32)

  datatype TargetID = TargetID(producer: Option<SensorID>, serial: Option<TimeSerial>)

  /** Conversion to 32 bits, keeping the low ones. */
  function ToInt32(n: int): (r: Int32) {
    var m := n % 0x1_0000_0000;
    if m < 0x8000_0000 then m else m - 0x1_0000_0000
  }

  // ---------- the string form ----------

  function Pair(key: string, value: int): (s: string) {
    key + ":" + Decimal(value)
  }

  function SerialText(t: TimeSerial): (s: string) {
    Pair("sec", t.seconds) + ":" + Pair("ctr", t.counter)
  }

  function ProducerText(p: SensorID): (s: string) {
    ":" + Pair("site", p.site) + ":" + Pair("eid", p.eid)
  }

  function StringID(id: TargetID): (s: string) {
    (if id.serial.Some? then SerialText(id.serial.value) else "")
    + (if id.producer.Some? then ProducerText(id.producer.value) else "")
  }

  /** The first `k` pairs of a list of keys and values; a later value replaces an earlier one. */
  function Pairs(arr: seq<string>, k: nat): (m: map<string, string>)
    requires 2 * k <= |arr|
  {
    if k == 0 then map[] else Pairs(arr, k - 1)[arr[2 * k - 2] := arr[2 * k - 1]]
  }

  /** How a number is read; None is a panic. */
  type Reading = string -> Option<UInt32>

  /** The number under a key, zero without it. */
  function Lookup(m: map<string, string>, key: string, read: Reading): (r: Option<UInt32>) {
    if key in m then read(m[key]) else Some(0)
  }

  function ProducerIn(m: map<string, string>, read: Reading): (r: Option<Option<SensorID>>) {
    if "site" !in m && "eid" !in m then Some(None)
    else match (Lookup(m, "site", read), Lookup(m, "eid", read)) {
      case (Some(site), Some(eid)) => Some(Some(SensorID(site, eid)))
      case (_, _) => None
    }
  }

  function SerialIn(m: map<string, string>, read: Reading): (r: Option<Option<TimeSerial>>) {
    if "sec" !in m then Some(None)
    else match (read(m["sec"]), read(if "ctr" in m then m["ctr"] else "")) {
      case (Some(sec), Some(ctr)) => Some(Some(TimeSerial(sec, ToInt32(ctr))))
      case (_, _) => None
    }
  }

  /** What a table of keys and values says; None is a panic. */
  function Told(m: map<string, string>, read: Reading): (r: Option<TargetID>) {
    match (ProducerIn(m, read), SerialIn(m, read)) {
      case (Some(producer), Some(serial)) => Some(TargetID(producer, serial))
      case (_, _) => None
    }
  }

  function Decoded(s: string): (r: Option<TargetID>) {
    var arr := Split(s, ':');
    Told(Pairs(arr, |arr| / 2), ParseUint)
  }

  /** Reading a string form; None is a panic. */
  method FromTargetStringID(s: string) returns (r: Option<TargetID>)
    ensures r == Decoded(s)
  {
    var m := ReadPairs(Split(s, ':'));
    return Told(m, ParseUint);
  }

  /** The loop over pairs. */
  method ReadPairs(arr: seq<string>) returns (m: map<string, string>)
    ensures m == Pairs(arr, |arr| / 2)
  {
    m := map[];
    var i := 1;
    ghost var k := 0;
    while i < |arr|
      invariant i == 2 * k + 1 <= |arr| + 1
      invariant m == Pairs(arr, k)
    {
      m := m[arr[i - 1] := arr[i]];
      i, k := i + 2, k + 1;
    }
  }

  /** The identifiers that their string form tells in full. */
  predicate Tellable(id: TargetID) {
    match id.serial
    case Some(t) => 0 <= t.seconds < LIMIT && 0 <= t.counter
    case None => id.producer.None?
  }

  lemma SplitPair(s: string, key: string, value: int)
    requires Without(key, ':')
    ensures Split(s + ":" + Pair(key, value), ':') == Split(s, ':') + [key, Decimal(value)]
  {
    var v := Decimal(value);
    DecimalIsPlain(value);
    SplitAppends(s, key, ':');
    SplitAppends(s + ":" + key, v, ':');
    assert s + ":" + (key + ":" + v) == s + ":" + key + ":" + v;
  }

  lemma SplitTwoPairs(s: string, k: string, v: int, l: string, w: int)
    requires Without(k, ':') && Without(l, ':')
    ensures Split(s + (":" + Pair(k, v) + ":" + Pair(l, w)), ':') == Split(s, ':') + [k, Decimal(v), l, Decimal(w)]
  {
    SplitPair(s, k, v);
    SplitPair(s + ":" + Pair(k, v), l, w);
    assert s + (":" + Pair(k, v) + ":" + Pair(l, w)) == s + ":" + Pair(k, v) + ":" + Pair(l, w);
  }

  lemma SplitFirstPairs(k: string, v: int, l: string, w: int)
    requires Without(k, ':') && Without(l, ':')
    ensures Split(Pair(k, v) + ":" + Pair(l, w), ':') == [k, Decimal(v), l, Decimal(w)]
  {
    DecimalIsPlain(v);
    SplitPlain(k, ':');
    SplitAppends(k, Decimal(v), ':');
    SplitPair(Pair(k, v), l, w);
  }

  /** The pieces of a string form. */
  function Parts(id: TargetID): (parts: seq<string>) {
    (if id.serial.Some?
     then ["sec", Decimal(id.serial.value.seconds), "ctr", Decimal(id.serial.value.counter)]
     else [""])
    + (if id.producer.Some?
       then ["site", Decimal(id.producer.value.site), "eid", Decimal(id.producer.value.eid)]
       else [])
  }

  lemma SplitStringID(id: TargetID)
    ensures Split(StringID(id), ':') == Parts(id)
  {
    var first := if id.serial.Some? then SerialText(id.serial.value) else "";
    if id.serial.Some? {
      SplitFirstPairs("sec", id.serial.value.seconds, "ctr", id.serial.value.counter);
    }
    if id.producer.Some? {
      SplitTwoPairs(first, "site", id.producer.value.site, "eid", id.producer.value.eid);
    } else {
      assert first + "" == first;
    }
  }

  lemma TableOfTwo(a: string, v: string, b: string, w: string, more: seq<string>)
    requires a != b
    ensures var m := Pairs([a, v, b, w] + more, 2);
      m.Keys == {a, b} && m[a] == v && m[b] == w
  {
    assert Pairs([a, v, b, w] + more, 1) == map[a := v];
  }

  lemma TableOfFour(a: string, v: string, b: string, w: string, c: string, x: string, d: string, y: string)
    requires a != b && a != c && a != d && b != c && b != d && c != d
    ensures var m := Pairs([a, v, b, w] + [c, x, d, y], 4);
      a in m && m[a] == v && b in m && m[b] == w && c in m && m[c] == x && d in m && m[d] == y
  {
    var arr := [a, v, b, w] + [c, x, d, y];
    TableOfTwo(a, v, b, w, [c, x, d, y]);
    assert Pairs(arr, 3) == Pairs(arr, 2)[c := x];
  }

  lemma WordsDiffer()
    ensures "sec" != "ctr" && "sec" != "site" && "sec" != "eid" && "ctr" != "site" && "ctr" != "eid" && "site" != "eid"
  {
    assert "sec"[0] != "ctr"[0] && "sec"[1] != "site"[1] && "sec"[0] != "eid"[0];
    assert "ctr"[0] != "site"[0] && "ctr"[0] != "eid"[0] && "site"[0] != "eid"[0];
  }

  lemma NumeralIsNoWord(n: int)
    ensures Decimal(n) != "" && Decimal(n) != "sec" && Decimal(n) != "site" && Decimal(n) != "eid"
  {
    DecimalIsPlain(n);
    assert "sec"[0] == 's' && "site"[0] == 's' && "eid"[0] == 'e';
  }

  lemma SerialTold(m: map<string, string>, t: TimeSerial, read: Reading)
    requires "sec" in m && m["sec"] == Decimal(t.seconds) && "ctr" in m && m["ctr"] == Decimal(t.counter)
    requires read(Decimal(t.seconds)) == Fitting(t.seconds) && read(Decimal(t.counter)) == Fitting(t.counter)
    ensures SerialIn(m, read) == if 0 <= t.seconds < LIMIT && 0 <= t.counter then Some(Some(t)) else None
  {
  }

  lemma ProducerTold(m: map<string, string>, p: SensorID, read: Reading)
    requires "site" in m && m["site"] == Decimal(p.site) && "eid" in m && m["eid"] == Decimal(p.eid)
    requires read(Decimal(p.site)) == Fitting(p.site) && read(Decimal(p.eid)) == Fitting(p.eid)
    ensures ProducerIn(m, read) == Some(Some(p))
  {
  }

  lemma ToldBoth(m: map<string, string>, t: TimeSerial, p: SensorID, read: Reading)
    requires "sec" in m && m["sec"] == Decimal(t.seconds) && "ctr" in m && m["ctr"] == Decimal(t.counter)
    requires "site" in m && m["site"] == Decimal(p.site) && "eid" in m && m["eid"] == Decimal(p.eid)
    requires read(Decimal(t.seconds)) == Fitting(t.seconds) && read(Decimal(t.counter)) == Fitting(t.counter)
    requires read(Decimal(p.site)) == Fitting(p.site) && read(Decimal(p.eid)) == Fitting(p.eid)
    ensures Told(m, read) == if Tellable(TargetID(Some(p), Some(t))) then Some(TargetID(Some(p), Some(t))) else None
  {
    SerialTold(m, t, read);
    ProducerTold(m, p, read);
  }

  lemma ToldSerial(m: map<string, string>, t: TimeSerial, read: Reading)
    requires "sec" in m && m["sec"] == Decimal(t.seconds) && "ctr" in m && m["ctr"] == Decimal(t.counter)
    requires "site" !in m && "eid" !in m
    requires read(Decimal(t.seconds)) == Fitting(t.seconds) && read(Decimal(t.counter)) == Fitting(t.counter)
    ensures Told(m, read) == if Tellable(TargetID(None, Some(t))) then Some(TargetID(None, Some(t))) else None
  {
    SerialTold(m, t, read);
  }

  lemma DecodedFrom(s: string, arr: seq<string>, k: nat)
    requires Split(s, ':') == arr && |arr| / 2 == k
    ensures Decoded(s) == Told(Pairs(arr, k), ParseUint)
  {
  }

  lemma WithBoth(t: TimeSerial, p: SensorID)
    ensures var id := TargetID(Some(p), Some(t)); Decoded(StringID(id)) == if Tellable(id) then Some(id) else None
  {
    var id := TargetID(Some(p), Some(t));
    var (sec, ctr, site, eid) := (Decimal(t.seconds), Decimal(t.counter), Decimal(p.site), Decimal(p.eid));
    var arr := ["sec", sec, "ctr", ctr] + ["site", site, "eid", eid];
    SplitStringID(id);
    DecodedFrom(StringID(id), arr, 4);
    WordsDiffer();
    TableOfFour("sec", sec, "ctr", ctr, "site", site, "eid", eid);
    DecimalReads(t.seconds);
    DecimalReads(t.counter);
    DecimalReads(p.site);
    DecimalReads(p.eid);
    ToldBoth(Pairs(arr, 4), t, p, ParseUint);
  }

  lemma SerialTable(sec: string, ctr: string)
    ensures var m := Pairs(["sec", sec, "ctr", ctr] + [], 2);
      "sec" in m && m["sec"] == sec && "ctr" in m && m["ctr"] == ctr && "site" !in m && "eid" !in m
  {
    WordsDiffer();
    TableOfTwo("sec", sec, "ctr", ctr, []);
  }

  lemma WithSerial(t: TimeSerial)
    ensures var id := TargetID(None, Some(t)); Decoded(StringID(id)) == if Tellable(id) then Some(id) else None
  {
    var id := TargetID(None, Some(t));
    var arr := ["sec", Decimal(t.seconds), "ctr", Decimal(t.counter)] + [];
    SplitStringID(id);
    DecodedFrom(StringID(id), arr, 2);
    SerialTable(Decimal(t.seconds), Decimal(t.counter));
    DecimalReads(t.seconds);
    DecimalReads(t.counter);
    ToldSerial(Pairs(arr, 2), t, ParseUint);
  }

  /** Without a serial nothing is told: what is written of a producer is read one piece off. */
  lemma WithProducer(p: SensorID)
    ensures Decoded(StringID(TargetID(Some(p), None))) == Some(TargetID(None, None))
  {
    var id := TargetID(Some(p), None);
    var (site, eid) := (Decimal(p.site), Decimal(p.eid));
    SplitStringID(id);
    ProducerParts(p);
    DecodedFrom(StringID(id), ["", "site", site, "eid"] + [eid], 2);
    NumeralIsNoWord(p.site);
    ToldNothing(site, eid, ParseUint);
  }

  lemma ProducerParts(p: SensorID)
    ensures Parts(TargetID(Some(p), None)) == ["", "site", Decimal(p.site), "eid"] + [Decimal(p.eid)]
  {
  }

  lemma ToldNothing(site: string, eid: string, read: Reading)
    requires site != "" && site != "sec" && site != "site" && site != "eid"
    ensures Told(Pairs(["", "site", site, "eid"] + [eid], 2), read) == Some(TargetID(None, None))
  {
    TableOfTwo("", "site", site, "eid", [eid]);
  }

  /** An identifier comes back from its string form exactly if it is tellable. */
  lemma StringIDReadsIff(id: TargetID)
    ensures Decoded(StringID(id)) == Some(id) <==> Tellable(id)
  {
    match id
    case TargetID(Some(p), Some(t)) => WithBoth(t, p);
    case TargetID(None, Some(t)) => WithSerial(t);
    case TargetID(Some(p), None) => WithProducer(p);
    case TargetID(None, None) => SplitStringID(id);
  }

  /** Identifiers with a serial have different string forms, also those that do not come back. */
  lemma StringIDInjective(a: TargetID, b: TargetID)
    requires a.serial.Some? && b.serial.Some? && StringID(a) == StringID(b)
    ensures a == b
  {
    SplitStringID(a);
    SplitStringID(b);
    PartsInjective(a, b);
  }

  lemma PartsInjective(a: TargetID, b: TargetID)
    requires a.serial.Some? && b.serial.Some? && Parts(a) == Parts(b)
    ensures a == b
  {
    var p, q := Parts(a), Parts(b);
    assert p[1] == q[1] && p[3] == q[3];
    DecimalInjective(a.serial.value.seconds, b.serial.value.seconds);
    DecimalInjective(a.serial.value.counter, b.serial.value.counter);
    assert a.producer.Some? <==> |p| == 8;
    if a.producer.Some? {
      assert p[5] == q[5] && p[7] == q[7];
      DecimalInjective(a.producer.value.site, b.producer.value.site);
      DecimalInjective(a.producer.value.eid, b.producer.value.eid);
    }
  }

  // ---------- serial numbers ----------

  /** What an inserter keeps: the second it last used, and how often. */
  datatype Counting = Counting(lastSecond: Int64, counter: Int32)

  const FRESH := Counting(0, 0)

  function Ticked(c: Counting, now: Int64): (r: Counting) {
    if now == c.lastSecond then Counting(now, ToInt32(c.counter + 1)) else Counting(now, 1)
  }

  class DataInserter {
    var lastSecond: Int64
    var counter: Int32

    function State(): (c: Counting)
      reads this
    {
      Counting(lastSecond, counter)
    }

    constructor ()
      ensures State() == FRESH
    {
      lastSecond, counter := 0, 0;
    }

    /** A new identifier for a source, at a reading of the clock. */
    method GenerateTargetTSN(now: Int64, source: SensorID) returns (id: TargetID)
      modifies this
      ensures State() == Ticked(old(State()), now)
      ensures id == TargetID(Some(source), Some(TimeSerial(State().lastSecond, State().counter)))
    {
      if now == lastSecond {
        counter := ToInt32(counter + 1);
      } else {
        lastSecond := now;
        counter := 1;
      }
      return TargetID(Some(source), Some(TimeSerial(now, counter)));
    }

    /** A run: one call for each reading of the clock. */
    method Generate(clock: seq<Int64>, sources: seq<SensorID>) returns (ids: seq<TargetID>)
      requires |sources| == |clock| && State() == FRESH
      modifies this
      ensures |ids| == |clock|
      ensures forall k :: 0 <= k < |ids| ==> ids[k] == TargetID(Some(sources[k]), Some(SerialAt(clock, k)))
    {
      ids := [];
      for k := 0 to |clock|
        invariant |ids| == k && State() == After(clock, k)
        invariant forall j :: 0 <= j < k ==> ids[j] == TargetID(Some(sources[j]), Some(SerialAt(clock, j)))
      {
        var id := GenerateTargetTSN(clock[k], sources[k]);
        ids := ids + [id];
      }
    }
  }

  /** The state after `k` calls. */
  function After(clock: seq<Int64>, k: nat): (c: Counting)
    requires k <= |clock|
    ensures k > 0 ==> c.lastSecond == clock[k - 1]
  {
    if k == 0 then FRESH else Ticked(After(clock, k - 1), clock[k - 1])
  }

  function SerialAt(clock: seq<Int64>, k: nat): (t: TimeSerial)
    requires k < |clock|
  {
    TimeSerial(After(clock, k + 1).lastSecond, After(clock, k + 1).counter)
  }

  /** How many calls just before fell into the same second. */
  function Rank(clock: seq<Int64>, k: nat): (r: nat)
    requires k < |clock|
    ensures r <= k
  {
    if k > 0 && clock[k - 1] == clock[k] then Rank(clock, k - 1) + 1 else 0
  }

  lemma ToInt32Next(n: int)
    ensures ToInt32(ToInt32(n) + 1) == ToInt32(n + 1)
  {
  }

  lemma {:induction false} SerialCounts(clock: seq<Int64>, k: nat)
    requires k < |clock|
    ensures SerialAt(clock, k) == TimeSerial(clock[k], ToInt32(Rank(clock, k) + 1))
  {
    assert After(clock, k + 1) == Ticked(After(clock, k), clock[k]);
    if k == 0 {
      assert After(clock, 0) == FRESH;
    } else {
      SerialCounts(clock, k - 1);
      ToInt32Next(Rank(clock, k - 1) + 1);
    }
  }

  ghost predicate Forward(clock: seq<Int64>) {
    forall i, j :: 0 <= i <= j < |clock| ==> clock[i] <= clock[j]
  }

  lemma {:induction false} RankGrows(clock: seq<Int64>, i: nat, j: nat)
    requires Forward(clock) && i <= j < |clock| && clock[i] == clock[j]
    ensures Rank(clock, j) == Rank(clock, i) + (j - i)
    decreases j
  {
    if i < j {
      RankGrows(clock, i, j - 1);
    }
  }

  lemma {:induction false} RankReaches(clock: seq<Int64>, k: nat)
    requires k < |clock|
    ensures forall i :: k - Rank(clock, k) <= i <= k ==> clock[i] == clock[k]
  {
    if k > 0 && clock[k - 1] == clock[k] {
      RankReaches(clock, k - 1);
    }
  }

  ghost predicate Distinct(clock: seq<Int64>) {
    forall i, j :: 0 <= i < j < |clock| ==> SerialAt(clock, i) != SerialAt(clock, j)
  }

  lemma SameAfterLap(m: nat, n: nat)
    requires m < n && ToInt32(m) == ToInt32(n)
    ensures n - m >= LIMIT
  {
  }

  lemma LapIsSame(m: nat)
    ensures ToInt32(m) == ToInt32(m + LIMIT)
  {
  }

  lemma LapRepeats(clock: seq<Int64>, k: nat)
    requires Forward(clock) && k < |clock| && Rank(clock, k) >= LIMIT
    ensures SerialAt(clock, k - LIMIT) == SerialAt(clock, k)
  {
    var i := k - LIMIT;
    RankReaches(clock, k);
    RankGrows(clock, i, k);
    SerialCounts(clock, i);
    SerialCounts(clock, k);
    LapIsSame(Rank(clock, i) + 1);
  }

  lemma SameSecondDiffers(clock: seq<Int64>, i: nat, j: nat)
    requires Forward(clock) && i < j < |clock| && Rank(clock, j) < LIMIT
    ensures SerialAt(clock, i) != SerialAt(clock, j)
  {
    SerialCounts(clock, i);
    SerialCounts(clock, j);
    if SerialAt(clock, i) == SerialAt(clock, j) {
      RankGrows(clock, i, j);
      SameAfterLap(Rank(clock, i) + 1, Rank(clock, j) + 1);
    }
  }

  /** No second sees more calls than the counter can tell. */
  ghost predicate Sparse(clock: seq<Int64>) {
    forall k :: 0 <= k < |clock| ==> Rank(clock, k) < LIMIT
  }

  /** With a clock that does not go back, serials differ exactly if no second sees more calls than the counter can tell. */
  lemma DistinctIff(clock: seq<Int64>)
    requires Forward(clock)
    ensures Distinct(clock) <==> Sparse(clock)
  {
    if Sparse(clock) {
      forall i, j | 0 <= i < j < |clock|
        ensures SerialAt(clock, i) != SerialAt(clock, j)
      {
        SameSecondDiffers(clock, i, j);
      }
    } else {
      var k :| 0 <= k < |clock| && Rank(clock, k) >= LIMIT;
      LapRepeats(clock, k);
    }
  }

  /** One call more within a second, and a serial comes again. */
  lemma TooManyCalls(second: Int64)
    ensures var clock := seq(LIMIT + 1, _ => second); SerialAt(clock, 0) == SerialAt(clock, LIMIT)
  {
    var clock: seq<Int64> := seq(LIMIT + 1, _ => second);
    RankGrows(clock, 0, LIMIT);
    LapRepeats(clock, LIMIT);
  }

  /** Then the string forms differ too, for any producers. */
  lemma StringsDiffer(clock: seq<Int64>, p: SensorID, q: SensorID, i: nat, j: nat)
    requires Forward(clock) && Sparse(clock) && i < j < |clock|
    ensures StringID(TargetID(Some(p), Some(SerialAt(clock, i)))) != StringID(TargetID(Some(q), Some(SerialAt(clock, j))))
  {
    var a, b := TargetID(Some(p), Some(SerialAt(clock, i))), TargetID(Some(q), Some(SerialAt(clock, j)));
    SameSecondDiffers(clock, i, j);
    if StringID(a) == StringID(b) {
      StringIDInjective(a, b);
    }
  }

  /** A clock that goes back to a second gives the same serial again. */
  lemma ClockGoesBack(a: Int64, b: Int64)
    requires a != b
    ensures SerialAt([a, b, a], 0) == SerialAt([a, b, a], 2)
  {
    SerialCounts([a, b, a], 0);
    SerialCounts([a, b, a], 2);
  }

  /**
   While the clock does not go back, lies within 2^32 seconds and sees fewer
   than 2^31 calls a second, all identifiers of a run come back from their
   string forms, and these differ.
   */
  lemma RunIsTellable(clock: seq<Int64>, p: SensorID, q: SensorID, i: nat, j: nat)
    requires Forward(clock) && i < j < |clock|
    requires forall k :: 0 <= k < |clock| ==> 0 <= clock[k] < LIMIT && Rank(clock, k) + 1 < 0x8000_0000
    ensures var a, b := TargetID(Some(p), Some(SerialAt(clock, i))), TargetID(Some(q), Some(SerialAt(clock, j)));
      Decoded(StringID(a)) == Some(a) && Decoded(StringID(b)) == Some(b) && StringID(a) != StringID(b)
  {
    SerialTellable(clock, i, p);
    SerialTellable(clock, j, q);
    SameSecondDiffers(clock, i, j);
    TellablesDiffer(TargetID(Some(p), Some(SerialAt(clock, i))), TargetID(Some(q), Some(SerialAt(clock, j))));
  }

  lemma SerialTellable(clock: seq<Int64>, k: nat, p: SensorID)
    requires k < |clock| && 0 <= clock[k] < LIMIT && Rank(clock, k) + 1 < 0x8000_0000
    ensures Tellable(TargetID(Some(p), Some(SerialAt(clock, k))))
  {
    SerialCounts(clock, k);
    SmallCounter(clock[k], Rank(clock, k) + 1, p);
  }

  lemma SmallCounter(sec: Int64, n: nat, p: SensorID)
    requires 0 <= sec < LIMIT && n < 0x8000_0000
    ensures Tellable(TargetID(Some(p), Some(TimeSerial(sec, ToInt32(n)))))
  {
  }

  lemma TellablesDiffer(a: TargetID, b: TargetID)
    requires Tellable(a) && Tellable(b) && a != b
    ensures Decoded(StringID(a)) == Some(a) && Decoded(StringID(b)) == Some(b) && StringID(a) != StringID(b)
  {
    StringIDReadsIff(a);
    StringIDReadsIff(b);
  }
}
