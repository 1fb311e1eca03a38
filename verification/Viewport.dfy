/**
 A viewport on a collection of features: which features are visible, how many
 are counted, and a heatmap mode that replaces single features when there are
 too many.  The heatmap starts when `startCount` counted features are visible
 and stops when at most `stopCount` heatmap features lie within the bounds.

 Geometry is a parameter: `intersects` decides whether a shape meets the
 bounds, `cellOf` gives the heatmap cell of a shape.  Which identifiers are
 counted and which belong in the heatmap are parameters too.
 */
module Viewports {
  import opened Common

  datatype Feature<G> = Feature(id: string, shape: G)

  datatype Cell = Cell(row: int, col: int)

  datatype Status = Current | Timeout | OtherStatus

  datatype Kind<G> =
    | Shown(f: Feature<G>)
    | LeftGeoRange(f: Feature<G>)
    | TimedOut(f: Feature<G>)
    | HeatmapStart
    | HeatmapStop
    | Heatmap(cells: map<Cell, int>)
    | CountOnly

  /** A message to the client, with the counts at the time it is sent. */
  datatype Message<G> = Message(kind: Kind<G>, total: int, visible: int)

  /** What messages are about, in order. */
  ghost function Kinds<G>(log: seq<Message<G>>): (ks: seq<Kind<G>>) {
    if log == [] then [] else Kinds(log[..|log| - 1]) + [log[|log| - 1].kind]
  }

  lemma KindsNext<G>(log: seq<Message<G>>, m: Message<G>)
    ensures Kinds(log + [m]) == Kinds(log) + [m.kind]
  {
    assert (log + [m])[..|log|] == log;
  }

  /** Heatmap mode is entered and left in turn, heatmaps are sent only within it, and `active` says whether it is on at the end. */
  ghost predicate Bracketed<G>(ks: seq<Kind<G>>, active: bool) {
    if ks == [] then !active
    else
      var init := ks[..|ks| - 1];
      match ks[|ks| - 1]
      case HeatmapStart => active && Bracketed(init, false)
      case HeatmapStop => !active && Bracketed(init, true)
      case Heatmap(_) => active && Bracketed(init, true)
      case _ => Bracketed(init, active)
  }

  /** A message that has nothing to do with heatmap mode. */
  predicate IsPlain<G>(k: Kind<G>) {
    k.Shown? || k.LeftGeoRange? || k.TimedOut? || k.CountOnly?
  }

  ghost predicate AllPlain<G>(ks: seq<Kind<G>>) {
    forall i :: 0 <= i < |ks| ==> IsPlain(ks[i])
  }

  lemma BracketedNext<G>(ks: seq<Kind<G>>, k: Kind<G>, active: bool)
    ensures k.HeatmapStart? && Bracketed(ks, false) ==> Bracketed(ks + [k], true)
    ensures k.HeatmapStop? && Bracketed(ks, true) ==> Bracketed(ks + [k], false)
    ensures k.Heatmap? && Bracketed(ks, true) ==> Bracketed(ks + [k], true)
    ensures IsPlain(k) && Bracketed(ks, active) ==> Bracketed(ks + [k], active)
  {
    assert (ks + [k])[..|ks|] == ks;
  }

  lemma {:induction false} PlainKeepsBrackets<G>(ks: seq<Kind<G>>, more: seq<Kind<G>>, active: bool)
    requires Bracketed(ks, active) && AllPlain(more)
    ensures Bracketed(ks + more, active)
  {
    if more == [] {
      assert ks + more == ks;
    } else {
      var n := |more| - 1;
      PlainKeepsBrackets(ks, more[..n], active);
      BracketedNext(ks + more[..n], more[n], active);
      assert ks + more == (ks + more[..n]) + [more[n]];
    }
  }

  /** The counted identifiers being processed. */
  ghost function Processed(visible: map<string, bool>, counts: string -> bool): (ids: set<string>) {
    set k | k in visible && counts(k)
  }

  /** The counted identifiers marked visible. */
  ghost function Marked(visible: map<string, bool>, counts: string -> bool): (ids: set<string>) {
    set k | k in visible && visible[k] && counts(k)
  }

  lemma ProcessedAfterSet(visible: map<string, bool>, counts: string -> bool, id: string, now: bool)
    ensures |Processed(visible[id := now], counts)| == |Processed(visible, counts)| + One(id !in visible && counts(id))
  {
    var ids := Processed(visible, counts);
    if counts(id) {
      assert Processed(visible[id := now], counts) == ids + {id};
    } else {
      assert Processed(visible[id := now], counts) == ids;
    }
  }

  lemma MarkedAfterSet(visible: map<string, bool>, counts: string -> bool, id: string, now: bool)
    ensures |Marked(visible[id := now], counts)| ==
            |Marked(visible, counts)| + One(now && counts(id)) - One(id in visible && visible[id] && counts(id))
  {
    var ids := Marked(visible, counts);
    if now && counts(id) {
      assert Marked(visible[id := now], counts) == ids + {id};
    } else {
      assert Marked(visible[id := now], counts) == ids - {id};
    }
  }

  lemma ProcessedAfterRemove(visible: map<string, bool>, counts: string -> bool, id: string)
    ensures |Processed(visible - {id}, counts)| == |Processed(visible, counts)| - One(id in visible && counts(id))
  {
    assert Processed(visible - {id}, counts) == Processed(visible, counts) - {id};
  }

  lemma MarkedAfterRemove(visible: map<string, bool>, counts: string -> bool, id: string)
    ensures |Marked(visible - {id}, counts)| == |Marked(visible, counts)| - One(id in visible && visible[id] && counts(id))
  {
    assert Marked(visible - {id}, counts) == Marked(visible, counts) - {id};
  }

  /** What a scan of the collection leaves behind. */
  datatype Marks = Marks(visible: map<string, bool>, count: int, active: bool)

  /** What the client sees of a viewport, and has been told. */
  datatype View<G> = View(visible: map<string, bool>, count: int, active: bool, kinds: seq<Kind<G>>)

  /** What does not change while a viewport is in use. */
  datatype Setting<!G, !B> = Setting(
    startCount: int, stopCount: int,
    counts: string -> bool, inHeatmap: string -> bool,
    intersects: (G, B) -> bool, cellOf: (G, B) -> Cell)
  {
    predicate Within(b: B, f: Feature<G>) {
      intersects(f.shape, b)
    }

    predicate Counted(b: B, f: Feature<G>) {
      counts(f.id) && Within(b, f)
    }

    predicate Heated(b: B, f: Feature<G>) {
      inHeatmap(f.id) && Within(b, f)
    }

    /** How many heatmap features lie within the bounds. */
    ghost function HeatWithin(b: B, fs: seq<Feature<G>>): (n: nat) {
      if fs == [] then 0 else HeatWithin(b, fs[..|fs| - 1]) + One(Heated(b, fs[|fs| - 1]))
    }

    /** How many heatmap features within the bounds lie in one cell. */
    ghost function HeatInCell(b: B, fs: seq<Feature<G>>, c: Cell): (n: nat) {
      if fs == [] then 0
      else
        var f := fs[|fs| - 1];
        HeatInCell(b, fs[..|fs| - 1], c) + One(Heated(b, f) && cellOf(f.shape, b) == c)
    }

    /** Every heatmap feature within the bounds is in its cell, and the cells have no others. */
    ghost predicate Mapped(b: B, fs: seq<Feature<G>>, cells: map<Cell, int>) {
      forall c :: CellCount(cells, c) == HeatInCell(b, fs, c)
    }

    /** The cells of a heatmap. */
    ghost function HeatCells(b: B, fs: seq<Feature<G>>): (cells: map<Cell, int>) {
      if fs == [] then map[]
      else
        var cells, f := HeatCells(b, fs[..|fs| - 1]), fs[|fs| - 1];
        if Heated(b, f) then cells[cellOf(f.shape, b) := CellCount(cells, cellOf(f.shape, b)) + 1] else cells
    }

    lemma {:induction false} HeatCellsAreMapped(b: B, fs: seq<Feature<G>>)
      ensures Mapped(b, fs, HeatCells(b, fs)) && CellSum(HeatCells(b, fs)) == HeatWithin(b, fs)
    {
      if fs != [] {
        var init, f := fs[..|fs| - 1], fs[|fs| - 1];
        HeatCellsAreMapped(b, init);
        if Heated(b, f) {
          CellSumAfterSet(HeatCells(b, init), cellOf(f.shape, b), CellCount(HeatCells(b, init), cellOf(f.shape, b)) + 1);
        }
      }
    }

    /** How many counted features lie within the bounds. */
    ghost function CountedWithin(b: B, fs: seq<Feature<G>>): (n: nat) {
      if fs == [] then 0 else CountedWithin(b, fs[..|fs| - 1]) + One(Counted(b, fs[|fs| - 1]))
    }

    /** Stopping the heatmap does not at once start it again. */
    ghost predicate Stable(b: B, fs: seq<Feature<G>>) {
      HeatWithin(b, fs) <= stopCount ==> CountedWithin(b, fs) < startCount
    }

    /** Every feature of the collection is marked by whether it lies within the bounds. */
    ghost predicate Faithful(visible: map<string, bool>, b: B, fs: seq<Feature<G>>) {
      forall f :: f in fs ==> f.id in visible && visible[f.id] == Within(b, f)
    }

    lemma MarkedAlready(visible: map<string, bool>, b: B, fs: seq<Feature<G>>, f: Feature<G>)
      requires f in fs && Faithful(visible, b, fs)
      ensures visible[f.id := Within(b, f)] == visible
    {
    }

    lemma FaithfulExtends(visible: map<string, bool>, b: B, fs: seq<Feature<G>>, i: nat)
      requires i < |fs| && DistinctIds(fs) && Faithful(visible, b, fs[..i])
      ensures Faithful(visible[fs[i].id := Within(b, fs[i])], b, fs[..i + 1])
    {
      forall f | f in fs[..i + 1]
        ensures f == fs[i] || (f.id != fs[i].id && f in fs[..i])
      {
        var j :| 0 <= j < i + 1 && fs[j] == f;
        assert j < i ==> fs[..i][j] == f;
      }
    }

    lemma {:induction false} CountedPrefix(b: B, fs: seq<Feature<G>>, i: nat)
      requires i < |fs|
      ensures CountedWithin(b, fs[..i]) + One(Counted(b, fs[i])) == CountedWithin(b, fs[..i + 1]) <= CountedWithin(b, fs)
      decreases |fs|
    {
      assert fs[..i + 1][..i] == fs[..i];
      if i + 1 == |fs| {
        assert fs[..i + 1] == fs;
      } else {
        var init := fs[..|fs| - 1];
        assert init[..i] == fs[..i] && init[..i + 1] == fs[..i + 1];
        CountedPrefix(b, init, i);
      }
    }

    // ---------- messages ----------

    /** One message for each feature within the bounds, in the order of the collection. */
    ghost function Entering(b: B, fs: seq<Feature<G>>): (ks: seq<Kind<G>>) {
      if fs == [] then [] else Entering(b, fs[..|fs| - 1]) + if Within(b, fs[|fs| - 1]) then [Shown(fs[|fs| - 1])] else []
    }

    /** What is told of a feature: that it came in, which a new one does if it is visible, or left. */
    ghost function Change(b: B, visible: map<string, bool>, f: Feature<G>): (ks: seq<Kind<G>>) {
      var was := f.id in visible && visible[f.id];
      if was == Within(b, f) then [] else [if was then LeftGeoRange(f) else Shown(f)]
    }

    ghost function Changes(b: B, visible: map<string, bool>, fs: seq<Feature<G>>): (ks: seq<Kind<G>>) {
      if fs == [] then [] else Changes(b, visible, fs[..|fs| - 1]) + Change(b, visible, fs[|fs| - 1])
    }

    /** How much the count changes by a feature. */
    ghost function Delta(b: B, visible: map<string, bool>, f: Feature<G>): (n: int) {
      if counts(f.id) then One(Within(b, f)) - One(f.id in visible && visible[f.id]) else 0
    }

    ghost function Tally(b: B, visible: map<string, bool>, fs: seq<Feature<G>>): (n: int) {
      if fs == [] then 0 else Tally(b, visible, fs[..|fs| - 1]) + Delta(b, visible, fs[|fs| - 1])
    }

    /** The marks once these features have been checked. */
    ghost function MarkedBy(b: B, visible: map<string, bool>, fs: seq<Feature<G>>): (r: map<string, bool>) {
      if fs == [] then visible else MarkedBy(b, visible, fs[..|fs| - 1])[fs[|fs| - 1].id := Within(b, fs[|fs| - 1])]
    }

    /** Features that are still to come are marked as they were. */
    lemma {:induction false} MarkedElsewhere(b: B, visible: map<string, bool>, fs: seq<Feature<G>>, n: nat, j: nat)
      requires n <= j < |fs| && DistinctIds(fs)
      ensures var now, id := MarkedBy(b, visible, fs[..n]), fs[j].id;
        (id in now <==> id in visible) && (id in now ==> now[id] == visible[id])
    {
      if n > 0 {
        assert fs[..n][..n - 1] == fs[..n - 1];
        MarkedElsewhere(b, visible, fs, n - 1, j);
      }
    }

    lemma {:induction false} MarkedIsFaithful(b: B, visible: map<string, bool>, fs: seq<Feature<G>>, n: nat)
      requires n <= |fs| && DistinctIds(fs)
      ensures Faithful(MarkedBy(b, visible, fs[..n]), b, fs[..n])
    {
      if n > 0 {
        assert fs[..n][..n - 1] == fs[..n - 1];
        MarkedIsFaithful(b, visible, fs, n - 1);
        FaithfulExtends(MarkedBy(b, visible, fs[..n - 1]), b, fs, n - 1);
      }
    }

    lemma ChangesNext(b: B, visible: map<string, bool>, fs: seq<Feature<G>>, i: nat)
      requires i < |fs|
      ensures Changes(b, visible, fs[..i + 1]) == Changes(b, visible, fs[..i]) + Change(b, visible, fs[i])
      ensures Tally(b, visible, fs[..i + 1]) == Tally(b, visible, fs[..i]) + Delta(b, visible, fs[i])
      ensures MarkedBy(b, visible, fs[..i + 1]) == MarkedBy(b, visible, fs[..i])[fs[i].id := Within(b, fs[i])]
    {
      assert fs[..i + 1][..i] == fs[..i];
    }

    /** The count stays below the start of the heatmap over the first `n` features. */
    ghost predicate Calm(b: B, fs: seq<Feature<G>>, v: View<G>, n: nat)
      requires n <= |fs|
    {
      forall i :: 0 <= i <= n ==> v.count + Tally(b, v.visible, fs[..i]) < startCount
    }

    /** Feature `i` is the one at which it does not. */
    ghost predicate Exceeds(b: B, fs: seq<Feature<G>>, v: View<G>, i: nat) {
      i < |fs| && Calm(b, fs, v, i) && v.count + Tally(b, v.visible, fs[..i + 1]) >= startCount
    }

    /** In heatmap mode a heatmap is sent, or the mode is left and the features within the bounds are. */
    ghost function Refresh(before: seq<Kind<G>>, b: B, fs: seq<Feature<G>>): (ks: seq<Kind<G>>) {
      if HeatWithin(b, fs) > stopCount then before + [Heatmap(HeatCells(b, fs))] else before + [HeatmapStop] + Entering(b, fs)
    }

    /** A feature starts the heatmap: a new one is shown before that, a known one after all that follows from it. */
    ghost function Bursts(before: seq<Kind<G>>, b: B, fs: seq<Feature<G>>, f: Feature<G>, known: bool): (ks: seq<Kind<G>>) {
      if known then Refresh(before + [HeatmapStart], b, fs) + [Shown(f)]
      else Refresh(before + [Shown(f)] + [HeatmapStart], b, fs)
    }

    /** Taking in this feature does not start the heatmap. */
    predicate Quiet(b: B, visible: map<string, bool>, count: int, f: Feature<G>) {
      (f.id in visible && visible[f.id]) || count + One(Counted(b, f)) < startCount
    }

    /** What rechecking a feature does. */
    ghost predicate Rechecks(b: B, fs: seq<Feature<G>>, f: Feature<G>, v: View<G>, r: View<G>) {
      if Quiet(b, v.visible, v.count, f) then
        r == View(v.visible[f.id := Within(b, f)], v.count + Delta(b, v.visible, f), false, v.kinds + Change(b, v.visible, f))
      else
        && r.kinds == Bursts(v.kinds, b, fs, f, f.id in v.visible)
        && (r.active <==> HeatWithin(b, fs) > stopCount)
        && (!r.active ==> Settled(b, fs, r))
    }

    /** The heatmap has stopped, and everything is marked right. */
    ghost predicate Settled(b: B, fs: seq<Feature<G>>, v: View<G>) {
      Faithful(v.visible, b, fs) && v.count < startCount
    }

    /**
     What a scan of the collection tells: without a start of the heatmap one
     message for each change, in order; with one, those up to the feature that
     starts it, and then what that brings about, and nothing more.
     */
    ghost predicate Scans(b: B, fs: seq<Feature<G>>, v: View<G>, r: View<G>) {
      if v.active then r == v else
      && (Calm(b, fs, v, |fs|) ==>
            r == View(MarkedBy(b, v.visible, fs), v.count + Tally(b, v.visible, fs), false, v.kinds + Changes(b, v.visible, fs)))
      && forall i :: 0 <= i < |fs| && Exceeds(b, fs, v, i) ==>
                       && r.kinds == Bursts(v.kinds + Changes(b, v.visible, fs[..i]), b, fs, fs[i], fs[i].id in v.visible)
                       && (r.active <==> HeatWithin(b, fs) > stopCount)
    }

    /** How far a scan has come after `n` features. */
    ghost predicate Along(b: B, fs: seq<Feature<G>>, v: View<G>, n: nat, r: View<G>)
      requires n <= |fs|
    {
      if v.active then r == v
      else if Calm(b, fs, v, n) then
        r == View(MarkedBy(b, v.visible, fs[..n]), v.count + Tally(b, v.visible, fs[..n]), false,
                  v.kinds + Changes(b, v.visible, fs[..n]))
      else Burst(b, fs, v, r)
    }

    ghost predicate Burst(b: B, fs: seq<Feature<G>>, v: View<G>, r: View<G>) {
      && (exists i :: BurstAt(b, fs, v, i, r.kinds))
      && (r.active <==> HeatWithin(b, fs) > stopCount)
      && (!r.active ==> Settled(b, fs, r))
    }

    ghost predicate BurstAt(b: B, fs: seq<Feature<G>>, v: View<G>, i: nat, kinds: seq<Kind<G>>) {
      && Exceeds(b, fs, v, i)
      && kinds == Bursts(v.kinds + Changes(b, v.visible, fs[..i]), b, fs, fs[i], fs[i].id in v.visible)
    }

    lemma CalmNext(b: B, fs: seq<Feature<G>>, v: View<G>, n: nat)
      requires n < |fs|
      ensures Calm(b, fs, v, n + 1) <==> Calm(b, fs, v, n) && !Exceeds(b, fs, v, n)
    {
    }

    /** Once everything is marked right, rechecking tells nothing. */
    lemma SettledStays(b: B, fs: seq<Feature<G>>, i: nat, v: View<G>, r: View<G>)
      requires i < |fs| && Settled(b, fs, v) && !v.active && Rechecks(b, fs, fs[i], v, r)
      ensures r == v
    {
      assert fs[i] in fs;
      MarkedAlready(v.visible, b, fs, fs[i]);
      assert v.kinds + [] == v.kinds;
    }

    /** While the scan is calm the next feature is rechecked as it was marked at the start. */
    lemma CalmStep(b: B, fs: seq<Feature<G>>, v: View<G>, n: nat, m: View<G>, r: View<G>)
      requires n < |fs| && DistinctIds(fs) && !v.active && Calm(b, fs, v, n) && Along(b, fs, v, n, m) && Rechecks(b, fs, fs[n], m, r)
      ensures Along(b, fs, v, n + 1, r)
    {
      var f := fs[n];
      CalmNext(b, fs, v, n);
      ChangesNext(b, v.visible, fs, n);
      MarkedElsewhere(b, v.visible, fs, n, n);
      assert Delta(b, m.visible, f) == Delta(b, v.visible, f) && Change(b, m.visible, f) == Change(b, v.visible, f);
      if Quiet(b, m.visible, m.count, f) {
        assert !Exceeds(b, fs, v, n);
        assert v.kinds + Changes(b, v.visible, fs[..n]) + Change(b, v.visible, f)
            == v.kinds + (Changes(b, v.visible, fs[..n]) + Change(b, v.visible, f));
      } else {
        assert Exceeds(b, fs, v, n);
        assert BurstAt(b, fs, v, n, r.kinds);
      }
    }

    /** In a calm scan no feature starts the heatmap. */
    lemma CalmIsQuiet(b: B, fs: seq<Feature<G>>, v: View<G>, n: nat, m: View<G>)
      requires n < |fs| && DistinctIds(fs) && !v.active && Calm(b, fs, v, |fs|) && Along(b, fs, v, n, m)
      ensures !m.active && Quiet(b, m.visible, m.count, fs[n])
    {
      assert Calm(b, fs, v, n) && v.count + Tally(b, v.visible, fs[..n + 1]) < startCount;
      ChangesNext(b, v.visible, fs, n);
      MarkedElsewhere(b, v.visible, fs, n, n);
    }

    lemma ScanGoesOn(b: B, fs: seq<Feature<G>>, v: View<G>, n: nat, m: View<G>, r: View<G>)
      requires n < |fs| && DistinctIds(fs) && Along(b, fs, v, n, m)
      requires if m.active then r == m else Rechecks(b, fs, fs[n], m, r)
      ensures Along(b, fs, v, n + 1, r)
    {
      if v.active {
      } else if Calm(b, fs, v, n) {
        CalmStep(b, fs, v, n, m, r);
      } else {
        CalmNext(b, fs, v, n);
        if !m.active {
          SettledStays(b, fs, n, m, r);
        }
      }
    }

    lemma ScanIsDone(b: B, fs: seq<Feature<G>>, v: View<G>, r: View<G>)
      requires DistinctIds(fs) && Along(b, fs, v, |fs|, r)
      ensures Scans(b, fs, v, r) && (!r.active ==> Faithful(r.visible, b, fs))
    {
      assert fs[..|fs|] == fs;
      MarkedIsFaithful(b, v.visible, fs, |fs|);
      forall i | 0 <= i < |fs| && !v.active && Exceeds(b, fs, v, i)
        ensures r.kinds == Bursts(v.kinds + Changes(b, v.visible, fs[..i]), b, fs, fs[i], fs[i].id in v.visible)
      {
        var j: nat :| BurstAt(b, fs, v, j, r.kinds);
        assert i == j;
      }
    }

    /** With nothing marked visible at first, all that is told is what lies within the bounds. */
    lemma {:induction false} FreshScan(b: B, fs: seq<Feature<G>>, visible: map<string, bool>)
      requires forall f :: f in fs && f.id in visible ==> !visible[f.id]
      ensures Changes(b, visible, fs) == Entering(b, fs) && Tally(b, visible, fs) == CountedWithin(b, fs)
    {
      if fs != [] {
        var n := |fs| - 1;
        assert fs[n] in fs;
        FreshScan(b, fs[..n], visible);
      }
    }

    lemma FreshIsCalm(b: B, fs: seq<Feature<G>>, v: View<G>)
      requires CountedWithin(b, fs) < startCount && v.count == 0
      requires forall f :: f in fs && f.id in v.visible ==> !v.visible[f.id]
      ensures Calm(b, fs, v, |fs|)
    {
      assert fs[..|fs|] == fs;
      forall i | 0 <= i <= |fs| ensures v.count + Tally(b, v.visible, fs[..i]) < startCount {
        FreshScan(b, fs[..i], v.visible);
        if i < |fs| {
          CountedPrefix(b, fs, i);
        }
      }
    }

    lemma {:induction false} EnteringIsPlain(b: B, fs: seq<Feature<G>>)
      ensures AllPlain(Entering(b, fs))
    {
      if fs != [] {
        EnteringIsPlain(b, fs[..|fs| - 1]);
      }
    }

    lemma {:induction false} ChangesArePlain(b: B, visible: map<string, bool>, fs: seq<Feature<G>>)
      ensures AllPlain(Changes(b, visible, fs))
    {
      if fs != [] {
        ChangesArePlain(b, visible, fs[..|fs| - 1]);
      }
    }

    lemma RefreshBrackets(before: seq<Kind<G>>, b: B, fs: seq<Feature<G>>)
      requires Bracketed(before, true)
      ensures Bracketed(Refresh(before, b, fs), HeatWithin(b, fs) > stopCount)
    {
      BracketedNext(before, Heatmap(HeatCells(b, fs)), true);
      BracketedNext(before, HeatmapStop, true);
      EnteringIsPlain(b, fs);
      PlainKeepsBrackets(before + [HeatmapStop], Entering(b, fs), false);
    }

    lemma BurstBrackets(before: seq<Kind<G>>, b: B, fs: seq<Feature<G>>, f: Feature<G>, known: bool)
      requires Bracketed(before, false)
      ensures Bracketed(Bursts(before, b, fs, f, known), HeatWithin(b, fs) > stopCount)
    {
      if known {
        BracketedNext(before, HeatmapStart, false);
        RefreshBrackets(before + [HeatmapStart], b, fs);
        BracketedNext(Refresh(before + [HeatmapStart], b, fs), Shown(f), HeatWithin(b, fs) > stopCount);
      } else {
        BracketedNext(before, Shown(f), false);
        BracketedNext(before + [Shown(f)], HeatmapStart, false);
        RefreshBrackets(before + [Shown(f)] + [HeatmapStart], b, fs);
      }
    }

    /** A scan either is calm or has a first feature at which it is not. */
    lemma {:induction false} CalmOrExceeds(b: B, fs: seq<Feature<G>>, v: View<G>, n: nat) returns (i: nat)
      requires n <= |fs| && v.count < startCount
      ensures Calm(b, fs, v, n) || Exceeds(b, fs, v, i)
    {
      i := 0;
      if n > 0 {
        i := CalmOrExceeds(b, fs, v, n - 1);
        if Calm(b, fs, v, n - 1) {
          CalmNext(b, fs, v, n - 1);
          i := n - 1;
        }
      } else {
        assert fs[..0] == [];
      }
    }

    lemma ScanBrackets(b: B, fs: seq<Feature<G>>, v: View<G>, r: View<G>)
      requires !v.active && v.count < startCount && Bracketed(v.kinds, false) && Scans(b, fs, v, r)
      ensures Bracketed(r.kinds, r.active)
    {
      var i := CalmOrExceeds(b, fs, v, |fs|);
      if Calm(b, fs, v, |fs|) {
        ChangesArePlain(b, v.visible, fs);
        PlainKeepsBrackets(v.kinds, Changes(b, v.visible, fs), false);
      } else {
        ChangesArePlain(b, v.visible, fs[..i]);
        PlainKeepsBrackets(v.kinds, Changes(b, v.visible, fs[..i]), false);
        BurstBrackets(v.kinds + Changes(b, v.visible, fs[..i]), b, fs, fs[i], fs[i].id in v.visible);
      }
    }

    /** The marks and the count `revalidateAll` leaves when it does not end in heatmap mode. */
    ghost function Scan(b: B, fs: seq<Feature<G>>, i: nat, visible: map<string, bool>, count: int, fuel: nat): (r: Option<Marks>)
      requires i <= |fs|
      decreases fuel, |fs| - i
    {
      if i == |fs| then Some(Marks(visible, count, false))
      else
        var f := fs[i];
        var was := f.id in visible && visible[f.id];
        var marked := visible[f.id := Within(b, f)];
        var change := if counts(f.id) then One(Within(b, f)) - One(was) else 0;
        if change == 0 || count + change < startCount then Scan(b, fs, i + 1, marked, count + change, fuel)
        else if HeatWithin(b, fs) > stopCount then Some(Marks(marked, HeatWithin(b, fs), true))
        else
          var r := Restart(b, fs, marked, fuel);
          if r.None? || r.value.active then r
          else Scan(b, fs, i + 1, r.value.visible[f.id := Within(b, f)], r.value.count, fuel)
    }

    /** The same for `stopHeatmap`, with at most `fuel` of its calls nested in one another; None when that is too few. */
    ghost function Restart(b: B, fs: seq<Feature<G>>, visible: map<string, bool>, fuel: nat): (r: Option<Marks>)
      decreases fuel, 0
    {
      if fuel == 0 then None
      else Scan(b, fs, 0, map k | k in visible :: false, 0, fuel - 1)
    }

    ghost predicate EndsWith(b: B, fs: seq<Feature<G>>, visible: map<string, bool>, fuel: nat) {
      Restart(b, fs, visible, fuel).Some?
    }

    /** Features from `i` on are not marked visible, and those before make up the count. */
    ghost predicate Afresh(b: B, fs: seq<Feature<G>>, i: nat, visible: map<string, bool>, count: int)
      requires i <= |fs|
    {
      && count == CountedWithin(b, fs[..i]) < startCount
      && forall j :: i <= j < |fs| ==> fs[j].id in visible ==> !visible[fs[j].id]
    }

    lemma AfreshStep(b: B, fs: seq<Feature<G>>, i: nat, visible: map<string, bool>, count: int)
      requires i < |fs| && DistinctIds(fs) && Afresh(b, fs, i, visible, count) && CountedWithin(b, fs) < startCount
      ensures Afresh(b, fs, i + 1, visible[fs[i].id := Within(b, fs[i])], count + One(Counted(b, fs[i])))
      ensures count + One(Counted(b, fs[i])) < startCount && !(fs[i].id in visible && visible[fs[i].id])
    {
      CountedPrefix(b, fs, i);
    }

    lemma ScanStep(b: B, fs: seq<Feature<G>>, i: nat, visible: map<string, bool>, count: int, fuel: nat)
      requires i < |fs| && DistinctIds(fs) && Afresh(b, fs, i, visible, count)
      requires CountedWithin(b, fs) < startCount
      ensures Afresh(b, fs, i + 1, visible[fs[i].id := Within(b, fs[i])], count + One(Counted(b, fs[i])))
      ensures Scan(b, fs, i, visible, count, fuel) ==
              Scan(b, fs, i + 1, visible[fs[i].id := Within(b, fs[i])], count + One(Counted(b, fs[i])), fuel)
    {
      AfreshStep(b, fs, i, visible, count);
    }

    /** With room below the start of the heatmap, one call suffices; it marks and counts what is within the bounds. */
    lemma {:induction false} ScanEnds(b: B, fs: seq<Feature<G>>, i: nat, visible: map<string, bool>, count: int, fuel: nat)
      requires i <= |fs| && DistinctIds(fs) && Afresh(b, fs, i, MarkedBy(b, visible, fs[..i]), count)
      requires CountedWithin(b, fs) < startCount
      ensures Scan(b, fs, i, MarkedBy(b, visible, fs[..i]), count, fuel) ==
              Some(Marks(MarkedBy(b, visible, fs), CountedWithin(b, fs), false))
      decreases |fs| - i
    {
      if i == |fs| {
        assert fs[..i] == fs;
      } else {
        ChangesNext(b, visible, fs, i);
        ScanStep(b, fs, i, MarkedBy(b, visible, fs[..i]), count, fuel);
        ScanEnds(b, fs, i + 1, visible, count + One(Counted(b, fs[i])), fuel);
      }
    }

    /** Without that room the scan starts the heatmap, which stops at once and scans again. */
    lemma {:induction false} ScanNeverEnds(b: B, fs: seq<Feature<G>>, i: nat, visible: map<string, bool>, count: int, fuel: nat)
      requires i <= |fs| && DistinctIds(fs) && Afresh(b, fs, i, visible, count)
      requires HeatWithin(b, fs) <= stopCount && startCount <= CountedWithin(b, fs)
      requires forall v :: Restart(b, fs, v, fuel).None?
      ensures Scan(b, fs, i, visible, count, fuel).None?
      decreases |fs| - i
    {
      assert fs[..|fs|] == fs;
      if i < |fs| {
        var marked := visible[fs[i].id := Within(b, fs[i])];
        CountedPrefix(b, fs, i);
        assert Restart(b, fs, marked, fuel).None?;
        if count + One(Counted(b, fs[i])) < startCount {
          ScanNeverEnds(b, fs, i + 1, marked, count + One(Counted(b, fs[i])), fuel);
        }
      }
    }

    lemma {:induction false} RestartNeverEnds(b: B, fs: seq<Feature<G>>, visible: map<string, bool>, fuel: nat)
      requires DistinctIds(fs) && startCount > 0
      requires HeatWithin(b, fs) <= stopCount && startCount <= CountedWithin(b, fs)
      ensures Restart(b, fs, visible, fuel).None?
      decreases fuel
    {
      if fuel > 0 {
        var less := fuel - 1;
        forall v ensures Restart(b, fs, v, less).None? {
          RestartNeverEnds(b, fs, v, less);
        }
        ScanNeverEnds(b, fs, 0, map k | k in visible :: false, 0, less);
      }
    }

    /**
     Once the heatmap has to stop, stopping it ends exactly when the counted
     features within the bounds are too few to start it again.  Otherwise the
     heatmap starts and stops for ever, each time one call deeper.
     */
    lemma RestartEndsIff(b: B, fs: seq<Feature<G>>, visible: map<string, bool>)
      requires DistinctIds(fs) && startCount > 0 && HeatWithin(b, fs) <= stopCount
      ensures (exists fuel: nat :: EndsWith(b, fs, visible, fuel)) <==> Stable(b, fs)
    {
      if Stable(b, fs) {
        assert fs[..0] == [];
        ScanEnds(b, fs, 0, map k | k in visible :: false, 0, 0);
        assert EndsWith(b, fs, visible, 1);
      } else {
        forall fuel: nat ensures !EndsWith(b, fs, visible, fuel) {
          RestartNeverEnds(b, fs, visible, fuel);
        }
      }
    }

    /** When exactly the heatmap features are counted, and the thresholds leave a gap, every collection is stable. */
    lemma {:induction false} StableWhenCountedIsHeated(b: B, fs: seq<Feature<G>>)
      requires stopCount < startCount
      requires forall f :: f in fs ==> (counts(f.id) <==> inHeatmap(f.id))
      ensures CountedWithin(b, fs) == HeatWithin(b, fs) && Stable(b, fs)
    {
      if fs != [] {
        StableWhenCountedIsHeated(b, fs[..|fs| - 1]);
      }
    }
  }

  ghost predicate DistinctIds<G>(fs: seq<Feature<G>>) {
    forall i, j :: 0 <= i < j < |fs| ==> fs[i].id != fs[j].id
  }

  /** The sum of the counts of all cells. */
  ghost function CellSum(cells: map<Cell, int>): (n: int) {
    if cells == map[] then 0
    else
      var c :| c in cells;
      cells[c] + CellSum(cells - {c})
  }

  function CellCount(cells: map<Cell, int>, c: Cell): (n: int) {
    if c in cells then cells[c] else 0
  }

  lemma {:induction false} CellSumWithout(cells: map<Cell, int>, c: Cell)
    requires c in cells
    ensures CellSum(cells) == cells[c] + CellSum(cells - {c})
    decreases |cells|
  {
    var d :| d in cells && CellSum(cells) == cells[d] + CellSum(cells - {d});
    if d != c {
      CellSumWithout(cells - {d}, c);
      CellSumWithout(cells - {c}, d);
      assert cells - {d} - {c} == cells - {c} - {d};
    }
  }

  lemma CellSumAfterSet(cells: map<Cell, int>, c: Cell, n: int)
    ensures CellSum(cells[c := n]) == CellSum(cells) - CellCount(cells, c) + n
  {
    CellSumWithout(cells[c := n], c);
    assert cells[c := n] - {c} == cells - {c};
    if c in cells {
      CellSumWithout(cells, c);
    } else {
      assert cells - {c} == cells;
    }
  }

  /** What happens to a viewport; each event comes with the collection as it is then scanned. */
  datatype Event<G, B> =
    | Move(bounds: B, fs: seq<Feature<G>>)
    | Feed(status: Status, f: Feature<G>, fs: seq<Feature<G>>)
    | Second(fs: seq<Feature<G>>)

  /** The state of a viewport. */
  datatype Snapshot<G, B> = Snapshot(bounds: B, visible: map<string, bool>, count: int, total: int, active: bool,
                                     prevCount: int, prevTotal: int, out: seq<Message<G>>)

  ghost function Seen<G, B>(s: Snapshot<G, B>): (v: View<G>) {
    View(s.visible, s.count, s.active, Kinds(s.out))
  }

  /** What the client is told after an update of a feature. */
  ghost predicate FeedTells<G, B>(st: Setting<G, B>, s: Snapshot<G, B>, status: Status, f: Feature<G>, fs: seq<Feature<G>>,
                                  r: Snapshot<G, B>)
  {
    var was, now := f.id in s.visible && s.visible[f.id], st.Within(s.bounds, f);
    if (s.active && st.inHeatmap(f.id)) || status == OtherStatus then r == s
    else if status == Timeout then
      r.active == s.active && r.out == s.out + if was then [Message(TimedOut(f), s.total, s.count)] else []
    else if s.active || st.Quiet(s.bounds, s.visible, s.count, f) then
      r.active == s.active && r.out == s.out + if was || now then [Message(Shown(f), r.total, s.count)] else []
    else
      && (r.active <==> st.HeatWithin(s.bounds, fs) > st.stopCount)
      && Kinds(r.out) == st.Bursts(Kinds(s.out), s.bounds, fs, f, false)
  }

  /** A heatmap is sent, or the mode is left and features are. */
  ghost predicate HeatmapTells<G, B>(st: Setting<G, B>, s: Snapshot<G, B>, b: B, fs: seq<Feature<G>>, r: Snapshot<G, B>) {
    Kinds(r.out) == st.Refresh(Kinds(s.out), b, fs) && (r.active <==> st.HeatWithin(b, fs) > st.stopCount)
  }

  /** What the client is told after an event. */
  ghost predicate Tells<G, B>(st: Setting<G, B>, s: Snapshot<G, B>, e: Event<G, B>, r: Snapshot<G, B>) {
    match e
    case Feed(status, f, fs) => FeedTells(st, s, status, f, fs, r)
    case Move(b, fs) => if s.active then HeatmapTells(st, s, b, fs, r) else st.Scans(b, fs, Seen(s), Seen(r))
    case Second(fs) =>
      if s.active then HeatmapTells(st, s, s.bounds, fs, r)
      else
        && !r.active
        && r.out == s.out + if s.count == s.prevCount && s.total == s.prevTotal then [] else [Message(CountOnly, s.total, s.count)]
  }

  ghost predicate InMode<G, B>(s: Snapshot<G, B>) {
    Bracketed(Kinds(s.out), s.active)
  }

  lemma OneMorePlain<G, B>(s: Snapshot<G, B>, m: Message<G>, r: Snapshot<G, B>)
    requires InMode(s) && IsPlain(m.kind) && r.active == s.active && (r.out == s.out || r.out == s.out + [m])
    ensures InMode(r)
  {
    KindsNext(s.out, m);
    BracketedNext(Kinds(s.out), m.kind, s.active);
  }

  /** So heatmap mode is entered and left in turn. */
  lemma TellsInMode<G, B>(st: Setting<G, B>, s: Snapshot<G, B>, e: Event<G, B>, r: Snapshot<G, B>)
    requires InMode(s) && Tells(st, s, e, r) && (!s.active ==> s.count < st.startCount)
    ensures InMode(r)
  {
    match e
    case Feed(status, f, fs) => FeedInMode(st, s, status, f, fs, r);
    case Move(b, fs) =>
      if s.active {
        st.RefreshBrackets(Kinds(s.out), b, fs);
      } else {
        st.ScanBrackets(b, fs, Seen(s), Seen(r));
      }
    case Second(fs) =>
      if s.active {
        st.RefreshBrackets(Kinds(s.out), s.bounds, fs);
      } else {
        OneMorePlain(s, Message(CountOnly, s.total, s.count), r);
      }
  }

  lemma FeedInMode<G, B>(st: Setting<G, B>, s: Snapshot<G, B>, status: Status, f: Feature<G>, fs: seq<Feature<G>>, r: Snapshot<G, B>)
    requires InMode(s) && FeedTells(st, s, status, f, fs, r)
    ensures InMode(r)
  {
    if (s.active && st.inHeatmap(f.id)) || status == OtherStatus {
    } else if status == Timeout {
      OneMorePlain(s, Message(TimedOut(f), s.total, s.count), r);
    } else if s.active || st.Quiet(s.bounds, s.visible, s.count, f) {
      OneMorePlain(s, Message(Shown(f), r.total, s.count), r);
    } else {
      st.BurstBrackets(Kinds(s.out), s.bounds, fs, f, false);
    }
  }

  ghost predicate AllTold<G, B>(st: Setting<G, B>, events: seq<Event<G, B>>, trace: seq<Snapshot<G, B>>) {
    |trace| == |events| + 1 && forall i :: 0 <= i < |events| ==> Tells(st, trace[i], events[i], trace[i + 1])
  }

  lemma AllToldNext<G, B>(st: Setting<G, B>, events: seq<Event<G, B>>, i: nat, trace: seq<Snapshot<G, B>>, r: Snapshot<G, B>)
    requires i < |events| && AllTold(st, events[..i], trace) && Tells(st, trace[i], events[i], r)
    ensures AllTold(st, events[..i + 1], trace + [r])
  {
    var longer := trace + [r];
    forall k | 0 <= k < i + 1 ensures Tells(st, longer[k], events[..i + 1][k], longer[k + 1]) {
      if k < i {
        assert Tells(st, trace[k], events[..i][k], trace[k + 1]);
      }
    }
  }

  class Viewport<G(!new), B(!new)> {
    const setting: Setting<G, B>

    var bounds: B
    var visible: map<string, bool>
    var count: int
    var total: int
    var heatmapActive: bool
    var prevCount: int
    var prevTotal: int
    var out: seq<Message<G>>

    /** What holds at every moment, also within an operation. */
    ghost predicate Base()
      reads this
    {
      total == |Processed(visible, setting.counts)|
    }

    /** What holds between operations. */
    ghost predicate Valid()
      reads this
    {
      && Base()
      && (!heatmapActive ==> count == |Marked(visible, setting.counts)| && count < setting.startCount)
    }

    /** Taking in this feature does not start the heatmap. */
    predicate Quiet(f: Feature<G>)
      reads this
    {
      heatmapActive || Shows(f.id) || count + One(setting.Counted(bounds, f)) < setting.startCount
    }

    ghost function Now(): (s: Snapshot<G, B>)
      reads this
    {
      Snapshot(bounds, visible, count, total, heatmapActive, prevCount, prevTotal, out)
    }

    ghost function See(): (v: View<G>)
      reads this
    {
      View(visible, count, heatmapActive, Kinds(out))
    }

    /** Is this identifier marked visible? */
    predicate Shows(id: string)
      reads this
    {
      id in visible && visible[id]
    }

    constructor (setting: Setting<G, B>, bounds: B)
      requires setting.startCount > 0
      ensures Valid() && visible == map[] && !heatmapActive && out == [] && InMode(Now())
    {
      this.setting, this.bounds := setting, bounds;
      visible, count, total, heatmapActive, out := map[], 0, 0, false, [];
      prevCount, prevTotal := 0, 0;
    }

    method Send(kind: Kind<G>)
      modifies this`out, this`prevCount, this`prevTotal
      ensures out == old(out) + [Message(kind, total, count)] && prevCount == count && prevTotal == total
      ensures Kinds(out) == Kinds(old(out)) + [kind]
    {
      KindsNext(out, Message(kind, total, count));
      out := out + [Message(kind, total, count)];
      prevCount := count;
      prevTotal := total;
    }

    /** Scan the collection into cells; the heatmap goes on when more features lie within the bounds than `stopCount`. */
    method HeatmapCells(fs: seq<Feature<G>>) returns (cells: map<Cell, int>, ok: bool)
      modifies this`count
      ensures ok <==> setting.HeatWithin(bounds, fs) > setting.stopCount
      ensures count == if ok then setting.HeatWithin(bounds, fs) else old(count)
      ensures cells == setting.HeatCells(bounds, fs) && setting.Mapped(bounds, fs, cells)
      ensures ok ==> CellSum(cells) == count
    {
      cells := map[];
      var found := 0;
      for i := 0 to |fs|
        invariant found == setting.HeatWithin(bounds, fs[..i]) && cells == setting.HeatCells(bounds, fs[..i])
        invariant count == old(count)
      {
        assert fs[..i + 1][..i] == fs[..i];
        var f := fs[i];
        if setting.inHeatmap(f.id) && setting.Within(bounds, f) {
          var cell := setting.cellOf(f.shape, bounds);
          cells := cells[cell := CellCount(cells, cell) + 1];
          found := found + 1;
        }
      }
      assert fs[..|fs|] == fs;
      setting.HeatCellsAreMapped(bounds, fs);
      ok := found > setting.stopCount;
      if ok {
        count := found;
      }
    }

    /** Take in one update of a feature. */
    method Process(status: Status, f: Feature<G>, fs: seq<Feature<G>>, ghost level: nat)
      requires Valid() && (status == Current && !Quiet(f) ==> level > 0 && setting.Stable(bounds, fs) && DistinctIds(fs))
      modifies this
      ensures Valid() && bounds == old(bounds)
      ensures (old(heatmapActive) && setting.inHeatmap(f.id)) || status == OtherStatus ==> unchanged(this)
      ensures !(old(heatmapActive) && setting.inHeatmap(f.id)) && status == Current && old(Quiet(f)) ==>
                && heatmapActive == old(heatmapActive) && visible == old(visible)[f.id := setting.Within(bounds, f)]
                && total == old(total) + One(f.id !in old(visible) && setting.counts(f.id))
                && count == old(count) + One(setting.Counted(bounds, f)) - One(old(Shows(f.id)) && setting.counts(f.id))
                && out == old(out) + if old(Shows(f.id)) || setting.Within(bounds, f)
                                     then [Message(Shown(f), total, old(count))] else []
      ensures status == Current && !old(Quiet(f)) ==> Refreshed(fs, Kinds(old(out)) + [Shown(f)] + [HeatmapStart])
      ensures !(old(heatmapActive) && setting.inHeatmap(f.id)) && status == Timeout ==>
                && visible == old(visible) - {f.id} && heatmapActive == old(heatmapActive)
                && total == old(total) - One(f.id in old(visible) && setting.counts(f.id))
                && count == old(count) - One(old(Shows(f.id)) && setting.counts(f.id))
                && out == old(out) + if old(Shows(f.id)) then [Message(TimedOut(f), old(total), old(count))] else []
      decreases level, 6
    {
      if heatmapActive && setting.inHeatmap(f.id) {
        return;
      }
      if status == Current {
        Update(f, fs, level);
      } else if status == Timeout {
        Remove(f, fs, level);
      }
    }

    method Update(f: Feature<G>, fs: seq<Feature<G>>, ghost level: nat)
      requires Valid() && (!Quiet(f) ==> level > 0 && setting.Stable(bounds, fs) && DistinctIds(fs))
      modifies this
      ensures Valid() && bounds == old(bounds)
      ensures old(Quiet(f)) ==>
                && heatmapActive == old(heatmapActive) && visible == old(visible)[f.id := setting.Within(bounds, f)]
                && total == old(total) + One(f.id !in old(visible) && setting.counts(f.id))
                && count == old(count) + One(setting.Counted(bounds, f)) - One(old(Shows(f.id)) && setting.counts(f.id))
                && out == old(out) + if old(Shows(f.id)) || setting.Within(bounds, f)
                                     then [Message(Shown(f), total, old(count))] else []
      ensures !old(Quiet(f)) ==> Refreshed(fs, Kinds(old(out)) + [Shown(f)] + [HeatmapStart])
      decreases level, 5
    {
      if f.id !in visible {
        Add(f, fs, level);
        return;
      }
      var was := visible[f.id];
      var now := setting.Within(bounds, f);
      ProcessedAfterSet(visible, setting.counts, f.id, now);
      MarkedAfterSet(visible, setting.counts, f.id, now);
      visible := visible[f.id := now];
      if was && !now {
        Send(Shown(f));
        if setting.counts(f.id) {
          ChangeCount(-1, fs, level);
        }
      } else if !was && now {
        Send(Shown(f));
        if setting.counts(f.id) {
          ChangeCount(1, fs, level);
        }
      } else if now {
        Send(Shown(f));
      }
    }

    method Add(f: Feature<G>, fs: seq<Feature<G>>, ghost level: nat)
      requires Valid() && f.id !in visible && (!Quiet(f) ==> level > 0 && setting.Stable(bounds, fs) && DistinctIds(fs))
      modifies this
      ensures Valid() && bounds == old(bounds)
      ensures old(Quiet(f)) ==>
                && heatmapActive == old(heatmapActive) && visible == old(visible)[f.id := setting.Within(bounds, f)]
                && total == old(total) + One(f.id !in old(visible) && setting.counts(f.id))
                && count == old(count) + One(setting.Counted(bounds, f)) - One(old(Shows(f.id)) && setting.counts(f.id))
                && out == old(out) + if old(Shows(f.id)) || setting.Within(bounds, f)
                                     then [Message(Shown(f), total, old(count))] else []
      ensures !old(Quiet(f)) ==> Refreshed(fs, Kinds(old(out)) + [Shown(f)] + [HeatmapStart])
      decreases level, 4
    {
      var vis := setting.Within(bounds, f);
      ProcessedAfterSet(visible, setting.counts, f.id, vis);
      MarkedAfterSet(visible, setting.counts, f.id, vis);
      visible := visible[f.id := vis];
      if setting.counts(f.id) {
        total := total + 1;
      }
      if vis {
        Send(Shown(f));
        if setting.counts(f.id) {
          ChangeCount(1, fs, level);
        }
      }
    }

    method Remove(f: Feature<G>, fs: seq<Feature<G>>, ghost level: nat)
      requires Valid()
      modifies this
      ensures Valid() && bounds == old(bounds)
      ensures visible == old(visible) - {f.id} && heatmapActive == old(heatmapActive)
      ensures total == old(total) - One(f.id in old(visible) && setting.counts(f.id))
      ensures count == old(count) - One(old(Shows(f.id)) && setting.counts(f.id))
      ensures out == old(out) + if old(Shows(f.id)) then [Message(TimedOut(f), old(total), old(count))] else []
      decreases level, 5
    {
      var known := f.id in visible;
      var was := known && visible[f.id];
      assert |Processed(visible - {f.id}, setting.counts)| == total - One(known && setting.counts(f.id)) by {
        ProcessedAfterRemove(visible, setting.counts, f.id);
      }
      assert !heatmapActive ==> |Marked(visible - {f.id}, setting.counts)| == count - One(was && setting.counts(f.id)) by {
        MarkedAfterRemove(visible, setting.counts, f.id);
      }
      if was {
        Send(TimedOut(f));
        if setting.counts(f.id) {
          ChangeCount(-1, fs, level);
        }
      }
      visible := visible - {f.id};
      if known && setting.counts(f.id) {
        total := total - 1;
      }
    }

    /** A heatmap was sent, or the mode was left, with every feature marked right. */
    ghost predicate Refreshed(fs: seq<Feature<G>>, before: seq<Kind<G>>)
      reads this
    {
      && Kinds(out) == setting.Refresh(before, bounds, fs)
      && (heatmapActive <==> setting.HeatWithin(bounds, fs) > setting.stopCount)
      && if heatmapActive then count == setting.HeatWithin(bounds, fs)
         else setting.Faithful(visible, bounds, fs) && count == setting.CountedWithin(bounds, fs)
    }

    /** Change the count, and start the heatmap when it gets too large. */
    method ChangeCount(value: int, fs: seq<Feature<G>>, ghost level: nat)
      requires Base()
      requires !heatmapActive && count + value >= setting.startCount ==> level > 0 && setting.Stable(bounds, fs) && DistinctIds(fs)
      modifies this
      ensures Base() && bounds == old(bounds)
      ensures old(heatmapActive) || old(count) + value < setting.startCount ==>
                && count == old(count) + value && visible == old(visible) && total == old(total)
                && heatmapActive == old(heatmapActive) && out == old(out)
      ensures !old(heatmapActive) && old(count) + value >= setting.startCount ==>
                Valid() && (heatmapActive ==> visible == old(visible)) && Refreshed(fs, Kinds(old(out)) + [HeatmapStart])
      decreases level, 3
    {
      count := count + value;
      if count >= setting.startCount && !heatmapActive {
        StartHeatmap(fs, level);
      }
    }

    method StartHeatmap(fs: seq<Feature<G>>, ghost level: nat)
      requires level > 0 && Base() && !heatmapActive && setting.Stable(bounds, fs) && DistinctIds(fs)
      modifies this
      ensures Valid() && bounds == old(bounds)
      ensures heatmapActive ==> visible == old(visible)
      ensures Refreshed(fs, Kinds(old(out)) + [HeatmapStart])
      decreases level, 2
    {
      heatmapActive := true;
      Send(HeatmapStart);
      SendHeatmap(fs, level);
    }

    /** Send a heatmap, or leave heatmap mode when few features are left within the bounds. */
    method SendHeatmap(fs: seq<Feature<G>>, ghost level: nat)
      requires level > 0 && Base() && (heatmapActive ==> setting.Stable(bounds, fs) && DistinctIds(fs))
      modifies this
      ensures Base() && bounds == old(bounds)
      ensures !old(heatmapActive) ==> unchanged(this)
      ensures old(heatmapActive) ==> Valid() && Refreshed(fs, Kinds(old(out)))
      ensures old(heatmapActive) && heatmapActive ==>
                && visible == old(visible)
                && out != [] && out == old(out) + [Message(out[|out| - 1].kind, total, count)]
      decreases level, 1
    {
      if !heatmapActive {
        return;
      }
      var cells, ok := HeatmapCells(fs);
      if !ok {
        StopHeatmap(fs, level);
        return;
      }
      Send(Heatmap(cells));
    }

    method StopHeatmap(fs: seq<Feature<G>>, ghost level: nat)
      requires level > 0 && Base() && heatmapActive && setting.Stable(bounds, fs) && DistinctIds(fs) && setting.HeatWithin(bounds, fs) <= setting.stopCount
      modifies this
      ensures Valid() && bounds == old(bounds)
      ensures !heatmapActive && setting.Faithful(visible, bounds, fs) && count == setting.CountedWithin(bounds, fs)
      ensures setting.Restart(bounds, fs, old(visible), 1) == Some(Marks(visible, count, false))
      ensures Kinds(out) == Kinds(old(out)) + [HeatmapStop] + setting.Entering(bounds, fs)
      decreases level, 0
    {
      heatmapActive := false;
      ghost var before := visible;
      visible := map k | k in visible :: false;
      assert Processed(visible, setting.counts) == Processed(before, setting.counts);
      assert Marked(visible, setting.counts) == {};
      count := 0;
      Send(HeatmapStop);
      setting.FreshIsCalm(bounds, fs, See());
      setting.FreshScan(bounds, fs, visible);
      assert fs[..0] == [];
      setting.ScanEnds(bounds, fs, 0, visible, 0, 0);
      RevalidateAll(fs, 0);
    }

    /** Bring every feature of the collection up to date with the bounds. */
    method RevalidateAll(fs: seq<Feature<G>>, ghost level: nat)
      requires Valid() && setting.Stable(bounds, fs) && DistinctIds(fs)
      requires level == 0 ==> !heatmapActive && setting.Calm(bounds, fs, See(), |fs|)
      modifies this
      ensures Valid() && bounds == old(bounds)
      ensures setting.Scans(bounds, fs, old(See()), See())
      ensures !heatmapActive ==> setting.Faithful(visible, bounds, fs)
      decreases level, 8
    {
      ghost var start := See();
      assert fs[..0] == [];
      for i := 0 to |fs|
        invariant Valid() && bounds == old(bounds)
        invariant setting.Along(bounds, fs, start, i, See())
      {
        ghost var before := See();
        if !heatmapActive {
          if level == 0 {
            setting.CalmIsQuiet(bounds, fs, start, i, before);
          }
          Revalidate(fs[i], fs, level);
        }
        setting.ScanGoesOn(bounds, fs, start, i, before, See());
      }
      setting.ScanIsDone(bounds, fs, start, See());
    }

    method Revalidate(f: Feature<G>, fs: seq<Feature<G>>, ghost level: nat)
      requires Valid() && !heatmapActive && (!Quiet(f) ==> level > 0 && setting.Stable(bounds, fs) && DistinctIds(fs) && f in fs)
      modifies this
      ensures Valid() && bounds == old(bounds)
      ensures setting.Rechecks(bounds, fs, f, old(See()), See())
      ensures old(Quiet(f)) ==>
                && total == old(total) + One(f.id !in old(visible) && setting.counts(f.id))
                && out == old(out) + if old(Shows(f.id)) == setting.Within(bounds, f) then []
                                     else [Message(if setting.Within(bounds, f) then Shown(f) else LeftGeoRange(f), total,
                                                   if f.id in old(visible) then count else old(count))]
      decreases level, 7
    {
      if f.id !in visible {
        Process(Current, f, fs, level);
        KindsNext(old(out), Message(Shown(f), total, old(count)));
        assert old(out) + [] == old(out) && Kinds(old(out)) + [] == Kinds(old(out));
      } else {
        RevalidateKnown(f, fs, level);
      }
    }

    /** A feature that was seen before. */
    method RevalidateKnown(f: Feature<G>, fs: seq<Feature<G>>, ghost level: nat)
      requires Valid() && !heatmapActive && f.id in visible
      requires !Quiet(f) ==> level > 0 && setting.Stable(bounds, fs) && DistinctIds(fs) && f in fs
      modifies this
      ensures Valid() && bounds == old(bounds)
      ensures setting.Rechecks(bounds, fs, f, old(See()), See())
      ensures old(Quiet(f)) ==>
                && total == old(total)
                && out == old(out) + if old(Shows(f.id)) == setting.Within(bounds, f) then []
                                     else [Message(if setting.Within(bounds, f) then Shown(f) else LeftGeoRange(f), total, count)]
      decreases level, 6
    {
      var was := visible[f.id];
      var now := setting.Within(bounds, f);
      ProcessedAfterSet(visible, setting.counts, f.id, now);
      MarkedAfterSet(visible, setting.counts, f.id, now);
      if was && !now {
        if setting.counts(f.id) {
          ChangeCount(-1, fs, level);
        }
        Send(LeftGeoRange(f));
      } else if !was && now {
        if setting.counts(f.id) {
          ChangeCount(1, fs, level);
        }
        Send(Shown(f));
      } else {
        assert Kinds(old(out)) + [] == Kinds(old(out));
      }
      if !heatmapActive && !old(Quiet(f)) {
        // the heatmap started and stopped again, which has marked this feature already
        setting.MarkedAlready(visible, bounds, fs, f);
      }
      visible := visible[f.id := now];
    }

    /** The client moves the viewport. */
    method SetBounds(b: B, fs: seq<Feature<G>>)
      requires Valid() && setting.Stable(b, fs) && DistinctIds(fs)
      modifies this
      ensures Valid() && bounds == b
      ensures !heatmapActive ==> setting.Faithful(visible, bounds, fs)
      ensures old(heatmapActive) ==> Refreshed(fs, Kinds(old(out)))
      ensures !old(heatmapActive) ==> setting.Scans(b, fs, old(See()), See())
    {
      bounds := b;
      if heatmapActive {
        SendHeatmap(fs, 1);
      } else {
        RevalidateAll(fs, 1);
      }
    }

    method SendCounts()
      requires Valid()
      modifies this`out, this`prevCount, this`prevTotal
      ensures Valid() && prevCount == count && prevTotal == total
      ensures out == old(out) + if count == old(prevCount) && total == old(prevTotal) then [] else [Message(CountOnly, total, count)]
    {
      if count == prevCount && total == prevTotal {
        return;
      }
      Send(CountOnly);
    }

    /** Once a second: a fresh heatmap, or the counts if they changed. */
    method Tick(fs: seq<Feature<G>>)
      requires Valid() && (heatmapActive ==> setting.Stable(bounds, fs) && DistinctIds(fs))
      modifies this
      ensures Valid() && bounds == old(bounds)
      ensures !old(heatmapActive) ==>
                && !heatmapActive && visible == old(visible) && count == old(count)
                && out == old(out) + if count == old(prevCount) && total == old(prevTotal) then [] else [Message(CountOnly, total, count)]
      ensures old(heatmapActive) ==> Refreshed(fs, Kinds(old(out)))
    {
      if heatmapActive {
        SendHeatmap(fs, 1);
      } else {
        SendCounts();
      }
    }

    /**
     A whole run, over any changes of the collection between its events, while
     collections are stable: the counts stay exact, heatmap mode is entered and
     left in turn, and every event is told as it should be.
     */
    method Run(events: seq<Event<G, B>>) returns (ghost trace: seq<Snapshot<G, B>>)
      requires Valid() && AllStable(setting, bounds, events)
      modifies this
      ensures Valid() && bounds == BoundsAfter(old(bounds), events, |events|)
      ensures AllTold(setting, events, trace) && trace[0] == old(Now()) && trace[|events|] == Now()
      ensures old(InMode(Now())) ==> InMode(Now())
    {
      trace := [Now()];
      for i := 0 to |events|
        invariant Valid() && bounds == BoundsAfter(old(bounds), events, i)
        invariant AllTold(setting, events[..i], trace) && trace[0] == old(Now()) && trace[i] == Now()
        invariant old(InMode(Now())) ==> InMode(Now())
      {
        assert setting.Stable(BoundsAfter(old(bounds), events, i + 1), events[i].fs);
        React(events[i]);
        AllToldNext(setting, events, i, trace, Now());
        trace := trace + [Now()];
      }
      assert events[..|events|] == events;
    }

    /** One event of a run. */
    method React(e: Event<G, B>)
      requires Valid() && DistinctIds(e.fs) && setting.Stable(if e.Move? then e.bounds else bounds, e.fs)
      modifies this
      ensures Valid() && bounds == if e.Move? then e.bounds else old(bounds)
      ensures Tells(setting, old(Now()), e, Now())
      ensures old(InMode(Now())) ==> InMode(Now())
    {
      match e {
        case Move(b, fs) => SetBounds(b, fs);
        case Feed(status, f, fs) => Process(status, f, fs, 1);
        case Second(fs) => Tick(fs);
      }
      if old(InMode(Now())) {
        TellsInMode(setting, old(Now()), e, Now());
      }
    }
  }

  /** The bounds after the first events of a run. */
  function BoundsAfter<G, B>(b: B, events: seq<Event<G, B>>, i: nat): (r: B)
    requires i <= |events|
  {
    if i == 0 then b else if events[i - 1].Move? then events[i - 1].bounds else BoundsAfter(b, events, i - 1)
  }

  /** At every event stopping the heatmap would not start it again. */
  ghost predicate AllStable<G, B>(setting: Setting<G, B>, b: B, events: seq<Event<G, B>>) {
    forall i :: 0 <= i < |events| ==> DistinctIds(events[i].fs) && setting.Stable(BoundsAfter(b, events, i + 1), events[i].fs)
  }

  /** When exactly the heatmap features are counted, and the thresholds leave a gap, this is so in every run. */
  lemma AllStableWhenCountedIsHeated<G, B>(setting: Setting<G, B>, b: B, events: seq<Event<G, B>>)
    requires setting.stopCount < setting.startCount && forall id :: setting.counts(id) <==> setting.inHeatmap(id)
    requires forall i :: 0 <= i < |events| ==> DistinctIds(events[i].fs)
    ensures AllStable(setting, b, events)
  {
    forall i | 0 <= i < |events| ensures setting.Stable(BoundsAfter(b, events, i + 1), events[i].fs) {
      setting.StableWhenCountedIsHeated(BoundsAfter(b, events, i + 1), events[i].fs);
    }
  }

  /** This many features with different identifiers. */
  function Crowd(n: nat): (fs: seq<Feature<int>>)
    ensures |fs| == n && DistinctIds(fs)
  {
    var fs := seq(n, i requires 0 <= i < n => Feature(seq(i, _ => 'a'), 0));
    assert forall i :: 0 <= i < n ==> |fs[i].id| == i;
    fs
  }

  /** Everything is visible and counted, and all or nothing belongs in the heatmap. */
  function Plain(start: int, stop: int, heated: bool): (setting: Setting<int, int>) {
    Setting(start, stop, _ => true, _ => heated, (_, _) => true, (_, _) => Cell(0, 0))
  }

  lemma {:induction false} AllCounted(start: int, stop: int, heated: bool, fs: seq<Feature<int>>)
    ensures Plain(start, stop, heated).CountedWithin(0, fs) == |fs|
    ensures Plain(start, stop, heated).HeatWithin(0, fs) == if heated then |fs| else 0
  {
    if fs != [] {
      AllCounted(start, stop, heated, fs[..|fs| - 1]);
    }
  }

  /**
   The thresholds of a view are not checked against each other.  With a start
   count that is not above the stop count, as many heatmap features as start the
   heatmap are few enough to stop it, and it starts and stops for ever.
   */
  lemma ThresholdsCross(start: nat, stop: nat, visible: map<string, bool>, fuel: nat)
    requires 0 < start <= stop
    ensures Plain(start, stop, true).Restart(0, Crowd(start), visible, fuel).None?
  {
    AllCounted(start, stop, true, Crowd(start));
    Plain(start, stop, true).RestartNeverEnds(0, Crowd(start), visible, fuel);
  }

  /** With any thresholds the same happens once enough counted features do not belong in the heatmap. */
  lemma HeatmapFlickers(start: nat, stop: nat, visible: map<string, bool>, fuel: nat)
    requires 0 < start
    ensures Plain(start, stop, false).Restart(0, Crowd(start), visible, fuel).None?
  {
    AllCounted(start, stop, false, Crowd(start));
    Plain(start, stop, false).RestartNeverEnds(0, Crowd(start), visible, fuel);
  }
}
