/**
 The in-memory tracks of the track merger: how target and metadata reports are
 placed in a track, and what is sent on.

 Targets and metadata are handled by two copies of the same code; both are
 modelled by `Report`.  Times are integers.
 */
module TrackStore {
  /** A target or a metadata item: when it was made, and whether a fusion device made it. */
  datatype Report = Report(time: int, fusion: bool, data: string)

  datatype Track = Track(id: string, targets: seq<Report>, metadata: seq<Report>)

  /** `disabled`: pass tracks through without merging.  `historical`: keep every report. */
  datatype Options = Options(disabled: bool, historical: bool)

  // ---------- placing one report in a list ----------

  /** May `item` stand in front of `other`? */
  predicate Leads(item: Report, other: Report) {
    (item.fusion && !other.fusion) || item.time >= other.time
  }

  /** The first position whose report `item` leads, and the front when there is none. */
  function InsertPos(list: seq<Report>, item: Report): (p: nat)
    ensures p <= |list| && (list != [] ==> p < |list|)
    ensures (exists i :: 0 <= i < |list| && Leads(item, list[i])) ==>
              Leads(item, list[p]) && forall i :: 0 <= i < p ==> !Leads(item, list[i])
    ensures (forall i :: 0 <= i < |list| ==> !Leads(item, list[i])) ==> p == 0
  {
    LeadsFrom(list, item, 0)
  }

  function LeadsFrom(list: seq<Report>, item: Report, i: nat): (p: nat)
    requires i <= |list|
    ensures p == 0 || i <= p < |list|
    ensures (exists j :: i <= j < |list| && Leads(item, list[j])) ==>
              i <= p < |list| && Leads(item, list[p]) && forall j :: i <= j < p ==> !Leads(item, list[j])
    ensures (forall j :: i <= j < |list| ==> !Leads(item, list[j])) ==> p == 0
    decreases |list| - i
  {
    if i == |list| then 0 else if Leads(item, list[i]) then i else LeadsFrom(list, item, i + 1)
  }

  /** Go's copy: the source is read as it was before, also when it overlaps the destination. */
  function Copied<T>(s: seq<T>, dst: nat, src: seq<T>): (r: seq<T>)
    requires dst <= |s|
    ensures |r| == |s|
  {
    var n := if |src| <= |s| - dst then |src| else |s| - dst;
    s[..dst] + src[..n] + s[dst + n..]
  }

  /** Appending a place, shifting by an overlapping copy and filling the gap is insertion. */
  lemma CopyOpensGap<T>(list: seq<T>, p: nat, item: T)
    requires p <= |list|
    ensures var longer := list + [item];
            Copied(longer, p + 1, longer[p..])[p := item] == list[..p] + [item] + list[p..]
  {
    var longer := list + [item];
    var r := Copied(longer, p + 1, longer[p..])[p := item];
    var s := list[..p] + [item] + list[p..];
    assert |r| == |s|;
    forall i | 0 <= i < |r| ensures r[i] == s[i] {
    }
  }

  /** Does the list change when `item` arrives? */
  predicate Accepts(historical: bool, list: seq<Report>, item: Report) {
    historical || list == [] || item.time > list[0].time
  }

  /** The list after `item` arrived. */
  function Inserted(historical: bool, list: seq<Report>, item: Report): (r: seq<Report>) {
    var p := InsertPos(list, item);
    if !Accepts(historical, list, item) then list
    else if historical || list == [] then list[..p] + [item] + list[p..]
    else list[0 := item]
  }

  /** The insertion as the code does it, by position search and overlapping copies. */
  method Insert(historical: bool, list: seq<Report>, item: Report) returns (r: seq<Report>, changed: bool)
    ensures changed <==> Accepts(historical, list, item)
    ensures r == Inserted(historical, list, item)
  {
    var ipos, rpos := -1, -1;
    r := list;
    for i := 0 to |list|
      invariant ipos == -1 || 0 <= ipos < i
      invariant ipos == -1 ==> forall j :: 0 <= j < i ==> !Leads(item, list[j])
      invariant ipos >= 0 ==> Leads(item, list[ipos]) && forall j :: 0 <= j < ipos ==> !Leads(item, list[j])
      invariant rpos == if i == 0 then -1 else 0
    {
      if ipos < 0 && Leads(item, list[i]) {
        ipos := i;
      }
      if rpos == -1 {
        rpos := i;
      }
    }
    if historical {
      rpos := -1;
    }
    if rpos >= 0 && !(item.time > list[rpos].time) {
      return list, false;
    }
    if ipos == -1 {
      ipos := 0;
    }
    assert ipos == InsertPos(list, item);
    if rpos == -1 {
      CopyOpensGap(list, ipos, item);
      r := list + [item];
      r := Copied(r, ipos + 1, r[ipos..]);
      r := r[ipos := item];
    } else if ipos == rpos {
      r := list[ipos := item];
    } else {
      assert false;  // neither shifting branch of the code is ever taken
    }
    return r, true;
  }

  /** All arrivals, one after the other. */
  function InsertedAll(historical: bool, list: seq<Report>, items: seq<Report>): (r: seq<Report>) {
    if items == [] then list
    else Inserted(historical, InsertedAll(historical, list, items[..|items| - 1]), items[|items| - 1])
  }

  lemma {:induction false} InsertedAllAppends(historical: bool, list: seq<Report>, a: seq<Report>, b: seq<Report>)
    ensures InsertedAll(historical, list, a + b) == InsertedAll(historical, InsertedAll(historical, list, a), b)
  {
    if b == [] {
      assert a + b == a;
    } else {
      assert (a + b)[..|a + b| - 1] == a + b[..|b| - 1];
      InsertedAllAppends(historical, list, a, b[..|b| - 1]);
    }
  }

  // ---------- histories ----------

  ghost predicate NewestFirst(list: seq<Report>) {
    forall i, j :: 0 <= i < j < |list| ==> list[i].time >= list[j].time
  }

  /** `item` is no older than the oldest report, and if from fusion no newer report is from elsewhere. */
  ghost predicate Timely(list: seq<Report>, item: Report) {
    && (list != [] ==> item.time >= list[|list| - 1].time)
    && (item.fusion ==> forall i :: 0 <= i < |list| && list[i].time > item.time ==> list[i].fusion)
  }

  /** A history keeps every report; nothing else of it changes. */
  lemma HistoryKeepsAll(list: seq<Report>, item: Report)
    ensures var p := InsertPos(list, item);
            && Inserted(true, list, item) == list[..p] + [item] + list[p..]
            && multiset(Inserted(true, list, item)) == multiset(list) + multiset{item}
  {
    var p := InsertPos(list, item);
    assert list == list[..p] + list[p..];
  }

  lemma {:induction false} HistoryIsEverything(items: seq<Report>)
    ensures multiset(InsertedAll(true, [], items)) == multiset(items)
  {
    if items != [] {
      var n := |items| - 1;
      HistoryIsEverything(items[..n]);
      HistoryKeepsAll(InsertedAll(true, [], items[..n]), items[n]);
      assert items == items[..n] + [items[n]];
    }
  }

  /** An arrival keeps a history newest first exactly when it is timely. */
  lemma OrderKeptIff(list: seq<Report>, item: Report)
    requires NewestFirst(list)
    ensures NewestFirst(Inserted(true, list, item)) <==> Timely(list, item)
  {
    var p := InsertPos(list, item);
    var r := Inserted(true, list, item);
    assert forall i :: 0 <= i < p ==> r[i] == list[i];
    assert r[p] == item;
    assert forall i :: p < i < |r| ==> r[i] == list[i - 1];
    if Timely(list, item) && list != [] {
      assert Leads(item, list[|list| - 1]);
      assert item.time >= list[p].time;
      forall i, j | 0 <= i < j < |r| ensures r[i].time >= r[j].time {
      }
    } else if list != [] {
      if item.time < list[|list| - 1].time {
        assert r[p + 1] == list[p] && list[p].time >= list[|list| - 1].time;
      } else {
        var i :| 0 <= i < |list| && list[i].time > item.time && !list[i].fusion && item.fusion;
        assert Leads(item, list[i]) && p <= i;
        assert r[i + 1] == list[i];
      }
    }
  }

  /** The history after the first `k` arrivals. */
  ghost function HistoryAt(items: seq<Report>, k: nat): (list: seq<Report>)
    requires k <= |items|
  {
    InsertedAll(true, [], items[..k])
  }

  lemma HistoryStep(items: seq<Report>, k: nat)
    requires k < |items| && NewestFirst(HistoryAt(items, k))
    ensures NewestFirst(HistoryAt(items, k + 1)) <==> Timely(HistoryAt(items, k), items[k])
  {
    assert items[..k + 1][..k] == items[..k];
    OrderKeptIff(HistoryAt(items, k), items[k]);
  }

  ghost predicate AlwaysTimely(items: seq<Report>, n: nat)
    requires n <= |items|
  {
    forall k :: 0 <= k < n ==> Timely(HistoryAt(items, k), items[k])
  }

  ghost predicate AlwaysOrdered(items: seq<Report>, n: nat)
    requires n <= |items|
  {
    forall k :: 0 <= k <= n ==> NewestFirst(HistoryAt(items, k))
  }

  /** Over a whole run: the history is newest first all along exactly when every arrival is timely. */
  lemma HistoryOrderedIff(items: seq<Report>, n: nat)
    requires n <= |items|
    ensures AlwaysOrdered(items, n) <==> AlwaysTimely(items, n)
  {
    if AlwaysOrdered(items, n) {
      forall k | 0 <= k < n ensures Timely(HistoryAt(items, k), items[k]) {
        assert NewestFirst(HistoryAt(items, k + 1));
        HistoryStep(items, k);
      }
    } else if AlwaysTimely(items, n) {
      TimelyIsOrdered(items, n);
    }
  }

  lemma {:induction false} TimelyIsOrdered(items: seq<Report>, n: nat)
    requires n <= |items| && AlwaysTimely(items, n)
    ensures AlwaysOrdered(items, n)
  {
    if n > 0 {
      TimelyIsOrdered(items, n - 1);
      assert NewestFirst(HistoryAt(items, n - 1));
      HistoryStep(items, n - 1);
    }
  }

  /** Arrival `k` is not older than the first one, nor, if from fusion, than an earlier report from elsewhere. */
  ghost predicate Unsurpassed(items: seq<Report>, k: nat)
    requires k < |items|
  {
    && items[k].time >= items[0].time
    && forall j :: 0 <= j < k && items[k].fusion && !items[j].fusion ==> items[k].time >= items[j].time
  }

  ghost predicate AllUnsurpassed(items: seq<Report>, n: nat)
    requires n <= |items|
  {
    forall k :: 0 <= k < n ==> Unsurpassed(items, k)
  }

  lemma SameMembers(list: seq<Report>, items: seq<Report>)
    requires multiset(list) == multiset(items)
    ensures forall r :: r in list <==> r in items
  {
    forall r: Report ensures r in list <==> r in items {
      assert r in multiset(list) <==> r in multiset(items);
    }
  }

  /** For one arrival to a history whose oldest report is the first one. */
  lemma TimelyByArrivals(list: seq<Report>, items: seq<Report>, k: nat)
    requires 0 < k < |items| && NewestFirst(list) && (forall r :: r in list <==> r in items[..k])
    requires forall j :: 0 <= j < k ==> items[j].time >= items[0].time
    ensures Timely(list, items[k]) <==> Unsurpassed(items, k)
  {
    assert items[..k][0] in list;
    assert list[|list| - 1] in items[..k];
    assert list[|list| - 1].time == items[0].time;
    assert forall i :: 0 <= i < |list| ==> list[i] in items[..k];
    assert forall j :: 0 <= j < k ==> items[..k][j] in list;
  }

  lemma HistoryMembers(items: seq<Report>, k: nat)
    requires k <= |items|
    ensures forall r :: r in HistoryAt(items, k) <==> r in items[..k]
  {
    HistoryIsEverything(items[..k]);
    SameMembers(HistoryAt(items, k), items[..k]);
  }

  lemma FirstIsOldest(items: seq<Report>, k: nat)
    requires k <= |items| && AllUnsurpassed(items, k)
    ensures forall j :: 0 <= j < k ==> items[j].time >= items[0].time
  {
    forall j | 0 <= j < k ensures items[j].time >= items[0].time {
      assert Unsurpassed(items, j);
    }
  }

  lemma TimelyStep(items: seq<Report>, k: nat)
    requires k < |items| && NewestFirst(HistoryAt(items, k)) && AllUnsurpassed(items, k)
    ensures Timely(HistoryAt(items, k), items[k]) <==> Unsurpassed(items, k)
  {
    if k > 0 {
      HistoryMembers(items, k);
      FirstIsOldest(items, k);
      TimelyByArrivals(HistoryAt(items, k), items, k);
    }
  }

  lemma AllUnsurpassedNext(items: seq<Report>, n: nat)
    requires n < |items|
    ensures AllUnsurpassed(items, n + 1) <==> AllUnsurpassed(items, n) && Unsurpassed(items, n)
  {
  }

  lemma AlwaysTimelyNext(items: seq<Report>, n: nat)
    requires n < |items|
    ensures AlwaysTimely(items, n + 1) <==> AlwaysTimely(items, n) && Timely(HistoryAt(items, n), items[n])
  {
  }

  /** In terms of the arrivals alone: every arrival of a run is timely exactly if none is surpassed. */
  lemma {:induction false} TimelyIff(items: seq<Report>, n: nat)
    requires n <= |items|
    ensures AlwaysTimely(items, n) <==> AllUnsurpassed(items, n)
  {
    if n > 0 {
      TimelyIff(items, n - 1);
      AllUnsurpassedNext(items, n - 1);
      AlwaysTimelyNext(items, n - 1);
      if AlwaysTimely(items, n - 1) {
        TimelyIsOrdered(items, n - 1);
        assert NewestFirst(HistoryAt(items, n - 1));
        TimelyStep(items, n - 1);
      }
    }
  }

  /** So a history is newest first all along exactly if no arrival is surpassed. */
  lemma HistoryOrderedByArrivals(items: seq<Report>, n: nat)
    requires n <= |items|
    ensures AlwaysOrdered(items, n) <==> AllUnsurpassed(items, n)
  {
    HistoryOrderedIff(items, n);
    TimelyIff(items, n);
  }

  /** Without fusion reports: timely means no older than the oldest report stored. */
  lemma TimelyWithoutFusion(list: seq<Report>, item: Report)
    requires !item.fusion
    ensures Timely(list, item) <==> list == [] || item.time >= list[|list| - 1].time
  {
  }

  // ---------- latest only ----------

  /** The first to arrive among those with the greatest time. */
  ghost predicate IsFirstLatest(items: seq<Report>, k: nat) {
    && k < |items|
    && (forall i :: 0 <= i < k ==> items[i].time < items[k].time)
    && (forall i :: k < i < |items| ==> items[i].time <= items[k].time)
  }

  lemma InsertedIntoOne(x: Report, item: Report)
    ensures Inserted(false, [], item) == [item]
    ensures Inserted(false, [x], item) == if item.time > x.time then [item] else [x]
  {
  }

  lemma FirstLatestStep(items: seq<Report>, k: nat)
    requires |items| > 1 && IsFirstLatest(items[..|items| - 1], k)
    ensures IsFirstLatest(items, if items[|items| - 1].time > items[k].time then |items| - 1 else k)
  {
    var init := items[..|items| - 1];
    assert forall i :: 0 <= i < |init| ==> init[i] == items[i];
  }

  /** Without history a list holds the first latest arrival and nothing else. */
  lemma {:induction false} LatestOnly(items: seq<Report>) returns (k: nat)
    requires items != []
    ensures IsFirstLatest(items, k) && InsertedAll(false, [], items) == [items[k]]
  {
    var n := |items| - 1;
    if n == 0 {
      k := 0;
      InsertedIntoOne(items[0], items[0]);
      assert items[..0] == [];
    } else {
      k := LatestOnly(items[..n]);
      InsertedIntoOne(items[k], items[n]);
      FirstLatestStep(items, k);
      if items[n].time > items[k].time {
        k := n;
      }
    }
  }

  /**
   Whatever the list: a report that replaces the one in front also goes to the
   front, so the branches that shift reports to make room are never taken.
   */
  lemma NeverShifts(list: seq<Report>, item: Report)
    requires list != [] && Accepts(false, list, item)
    ensures InsertPos(list, item) == 0
  {
    assert Leads(item, list[0]);
  }

  /** A late arrival goes to the front, where it is out of order. */
  lemma LateGoesFirst(list: seq<Report>, item: Report)
    requires list != [] && NewestFirst(list) && item.time < list[|list| - 1].time && !item.fusion
    ensures Inserted(true, list, item) == [item] + list && !NewestFirst(Inserted(true, list, item))
  {
    forall i | 0 <= i < |list| ensures !Leads(item, list[i]) {
      assert list[i].time >= list[|list| - 1].time;
    }
    assert Inserted(true, list, item) == [item] + list;
    assert ([item] + list)[0].time < ([item] + list)[1].time;
  }

  /** A run of two reports after which the history is out of order. */
  lemma HistoryUnsorts()
    ensures !NewestFirst(HistoryAt([Report(2, false, ""), Report(1, false, "")], 2))
  {
    var items := [Report(2, false, ""), Report(1, false, "")];
    assert items[..2] == items && items[..1] == [items[0]] && items[..0] == [];
    assert InsertedAll(true, [], items[..1]) == [items[0]];
    LateGoesFirst([items[0]], items[1]);
  }
}
