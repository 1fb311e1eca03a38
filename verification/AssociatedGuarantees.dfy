/** What every run of the associated-data provider guarantees. */
module AssociatedGuarantees {
  import opened Common
  import opened Tallies
  import opened AssociatedData

  // ---------- closing ----------

  /** A thread about to send on the shared channel. */
  predicate Sending(p: Phase) {
    p.Holding?
  }

  lemma NoneRuns(inputs: Inputs, w: World, i: nat)
    requires Inv(inputs, w) && w.threads == 0 && i < |w.tables|
    ensures !Running(w.tables[i].phase)
  {
    HowManyNone(w.tables, Runs);
    assert !Runs(w.tables[i]);
  }

  lemma NoneLoads(inputs: Inputs, w: World, i: nat)
    requires Inv(inputs, w) && w.backlogs == 0 && i < |w.tables|
    ensures !InBacklog(w.tables[i].phase)
  {
    HowManyNone(w.tables, Loads);
    assert !Loads(w.tables[i]);
  }

  /**
   In every interleaving the counts never go below zero, the channel is closed
   only when every thread is gone and none has panicked, then every item of
   every table has been sent, in the order of its table, and no thread is about
   to send any more.
   */
  lemma ClosesSafely(inputs: Inputs, ws: seq<World>, acts: seq<Action>, k: nat)
    requires Run(inputs, ws, acts) && k < |ws|
    ensures ws[k].backlogs >= 0 && ws[k].threads >= 0 && |ws[k].tables| == |inputs|
    ensures ws[k].closer.ChannelClosed? ==>
              forall i :: 0 <= i < |inputs| ==> ws[k].tables[i].phase.Gone? && From(ws[k].out, i) == Items(inputs[i])
    ensures forall i :: 0 <= i < |inputs| && Sending(ws[k].tables[i].phase) ==> !ws[k].closer.ChannelClosed?
  {
    InvAlways(inputs, ws, acts, k);
    forall i | ws[k].closer.ChannelClosed? && 0 <= i < |inputs|
      ensures ws[k].tables[i].phase.Gone? && From(ws[k].out, i) == Items(inputs[i])
    {
      NoneRuns(inputs, ws[k], i);
      assert ThreadInv(inputs, ws[k], i);
      assert inputs[i][..|inputs[i]|] == inputs[i];
    }
  }

  /** With no backlog outstanding and all tables added, all backlogs are on the channel. */
  lemma BacklogsSent(inputs: Inputs, w: World, i: nat)
    requires Inv(inputs, w) && w.backlogs == 0 && w.added == |w.tables| && i < |w.tables|
    ensures Items(inputs[i][..Cut(inputs[i])]) <= From(w.out, i)
  {
    NoneLoads(inputs, w, i);
    assert ThreadInv(inputs, w, i);
    ItemsPrefix(inputs[i], Cut(inputs[i]), Handed(w.tables[i]));
  }

  /** Where the marker is, all backlogs of all tables come before it. */
  ghost predicate MarkerLast(inputs: Inputs, out: seq<Out>, p: nat) {
    && p < |out| && out[p].Marker?
    && forall i :: 0 <= i < |inputs| ==> Items(inputs[i][..Cut(inputs[i])]) <= From(out[..p], i)
  }

  lemma MarkerLastStays(inputs: Inputs, out: seq<Out>, longer: seq<Out>, p: nat)
    requires MarkerLast(inputs, out, p) && out <= longer
    ensures MarkerLast(inputs, longer, p)
  {
    assert longer[..p] == out[..p];
  }

  lemma MarkIsLast(inputs: Inputs, w: World)
    requires Inv(inputs, w) && Enabled(w, Mark)
    ensures MarkerLast(inputs, w.out + [Marker], |w.out|)
  {
    assert (w.out + [Marker])[..|w.out|] == w.out;
    forall i | 0 <= i < |inputs| ensures Items(inputs[i][..Cut(inputs[i])]) <= From(w.out, i) {
      BacklogsSent(inputs, w, i);
    }
  }

  /** After the marker was sent: its place. */
  ghost predicate MarkedAt(inputs: Inputs, w: World, p: nat) {
    Marked(w.closer) ==> MarkerLast(inputs, w.out, p)
  }

  lemma MarkStep(inputs: Inputs, w: World, a: Action, p: nat) returns (p': nat)
    requires Inv(inputs, w) && Enabled(w, a) && MarkedAt(inputs, w, p)
    ensures MarkedAt(inputs, After(inputs, w, a), p')
  {
    p' := p;
    if a.Mark? {
      p' := |w.out|;
      MarkIsLast(inputs, w);
    } else if Marked(w.closer) {
      MarkerLastStays(inputs, w.out, After(inputs, w, a).out, p);
    }
  }

  lemma {:induction false} MarkerAt(inputs: Inputs, ws: seq<World>, acts: seq<Action>, k: nat) returns (p: nat)
    requires Run(inputs, ws, acts) && k < |ws|
    ensures MarkedAt(inputs, ws[k], p)
  {
    p := 0;
    if k > 0 {
      p := MarkerAt(inputs, ws, acts, k - 1);
      InvAlways(inputs, ws, acts, k - 1);
      p := MarkStep(inputs, ws[k - 1], acts[k - 1], p);
    }
  }

  /**
   In every interleaving the channel carries the marker at most once, exactly
   once by the time it is closed, and after every backlog item of every table.
   */
  lemma OneMarkerAfterBacklogs(inputs: Inputs, ws: seq<World>, acts: seq<Action>, k: nat)
    requires Run(inputs, ws, acts) && k < |ws|
    ensures Markers(ws[k].out) <= 1
    ensures ws[k].closer.ChannelClosed? ==> Markers(ws[k].out) == 1
    ensures Markers(ws[k].out) == 1 ==> exists p :: MarkerLast(inputs, ws[k].out, p)
  {
    InvAlways(inputs, ws, acts, k);
    if Markers(ws[k].out) == 1 {
      var p := MarkerAt(inputs, ws, acts, k);
    }
  }

  /** The closer never panics: when it wakes up the wait group is idle. */
  lemma CloserWakesSafely(inputs: Inputs, w: World)
    requires Inv(inputs, w) && Enabled(w, CloserWake)
    ensures Idle(w)
  {
  }

  // ---------- coming to an end ----------

  /** The thread has panicked. */
  predicate HasCrashed(t: Thread) {
    t.phase.Crashed?
  }

  /** A thread, or the caller, has panicked. */
  ghost predicate Panicked(w: World) {
    w.closer.CallerPanicked? || exists i :: 0 <= i < |w.tables| && HasCrashed(w.tables[i])
  }

  /** Nothing can move any more. */
  ghost predicate Stuck(w: World) {
    forall a :: !Enabled(w, a)
  }

  /** What a thread that is still at it can do, once no backlog is outstanding. */
  lemma ThreadCanMove(inputs: Inputs, w: World, i: nat) returns (a: Action)
    requires Inv(inputs, w) && !w.closer.CallerPanicked? && i < |w.tables|
    requires Running(w.tables[i].phase) && !w.tables[i].phase.Crashed? && (w.tables[i].phase.Waiting? ==> w.waiters == 0)
    ensures Enabled(w, a)
  {
    assert ThreadInv(inputs, w, i);
    match w.tables[i].phase
    case Reading(_) => a := Read(i);
    case Holding(_, _) => a := Send(i);
    case Releasing(_) => a := Release(i);
    case Arriving => a := Wait(i);
    case Waiting(_) => a := Wake(i);
    case Ending(_) => a := Finish(i);
    case Leaving => a := Leave(i);
  }

  /** Until the channel is closed or somebody has panicked, some thread can move. */
  lemma NoDeadlock(inputs: Inputs, w: World) returns (a: Action)
    requires Inv(inputs, w) && !w.closer.ChannelClosed? && !Panicked(w)
    ensures Enabled(w, a)
  {
    HowManyNone(w.tables, Loads);
    HowManyNone(w.tables, Runs);
    if w.closer.NotStarted? {
      a := if w.added < |w.tables| then Add else StartCloser;
    } else if w.backlogs > 0 {
      var i :| 0 <= i < |w.tables| && Loads(w.tables[i]);
      a := ThreadCanMove(inputs, w, i);
    } else if w.releaser.Some? {
      assert ThreadInv(inputs, w, w.releaser.value);
      a := Release(w.releaser.value);
    } else if w.closer.Starting? {
      a := CloserWait;
    } else if w.closer.Asleep? {
      a := CloserWake;
    } else if w.closer.Marking? {
      a := Mark;
    } else if w.threads == 0 {
      a := Close;
    } else {
      var i :| 0 <= i < |w.tables| && Runs(w.tables[i]);
      assert !HasCrashed(w.tables[i]);
      a := ThreadCanMove(inputs, w, i);
    }
  }

  /** How far a thread is from being gone. */
  function ThreadRank(input: seq<Response>, t: Thread): (n: nat) {
    var left := if t.taken <= |input| then 4 * (|input| - t.taken) else 0;
    match t.phase
    case NotAdded => left + 5
    case Reading(_) => left + 4
    case Holding(_, _) => left + 5
    case Releasing(leaving) => if leaving then 2 else left + 7
    case Arriving => left + 6
    case Waiting(_) => left + 5
    case Ending(_) => 3
    case Leaving => 1
    case Gone | Crashed => 0
  }

  function CloserRank(c: Closer): (n: nat) {
    match c
    case NotStarted => 5
    case Starting => 4
    case Asleep(_) => 3
    case Marking => 2
    case AwaitingThreads => 1
    case ChannelClosed | CallerPanicked => 0
  }

  function Ranks(inputs: Inputs, ts: seq<Thread>): (ns: seq<nat>)
    requires |inputs| == |ts|
    ensures |ns| == |ts| && forall i :: 0 <= i < |ts| ==> ns[i] == ThreadRank(inputs[i], ts[i])
  {
    seq(|ts|, i requires 0 <= i < |ts| => ThreadRank(inputs[i], ts[i]))
  }

  function Rank(inputs: Inputs, w: World): (n: nat)
    requires |inputs| == |w.tables|
  {
    Total(Ranks(inputs, w.tables)) + CloserRank(w.closer)
  }

  /** An action of a thread brings that thread nearer to its end, and leaves the others and the closer. */
  lemma ActorCountsDown(inputs: Inputs, w: World, a: Action)
    requires Inv(inputs, w) && Enabled(w, a) && Actor(w, a) < |w.tables|
    ensures var i, r := Actor(w, a), After(inputs, w, a);
      && r.closer == w.closer && |r.tables| == |w.tables| && r.tables == w.tables[i := r.tables[i]]
      && ThreadRank(inputs[i], r.tables[i]) < ThreadRank(inputs[i], w.tables[i])
  {
    assert ThreadInv(inputs, w, Actor(w, a));
  }

  /** Every action brings the end nearer. */
  lemma ActionsCountDown(inputs: Inputs, w: World, a: Action)
    requires Inv(inputs, w) && Enabled(w, a)
    ensures |After(inputs, w, a).tables| == |inputs| && Rank(inputs, After(inputs, w, a)) < Rank(inputs, w)
  {
    var i, r := Actor(w, a), After(inputs, w, a);
    if i < |w.tables| {
      ActorCountsDown(inputs, w, a);
      var ns := Ranks(inputs, w.tables);
      TotalChange(ns, i, ThreadRank(inputs[i], r.tables[i]));
      assert Ranks(inputs, r.tables) == ns[i := ThreadRank(inputs[i], r.tables[i])];
    }
  }

  lemma {:induction false} RunsAreShort(inputs: Inputs, ws: seq<World>, acts: seq<Action>, k: nat)
    requires Run(inputs, ws, acts) && k < |ws|
    ensures |ws[k].tables| == |inputs| && Rank(inputs, ws[k]) + k <= Rank(inputs, Start(inputs))
  {
    InvAlways(inputs, ws, acts, k);
    if k > 0 {
      RunsAreShort(inputs, ws, acts, k - 1);
      InvAlways(inputs, ws, acts, k - 1);
      ActionsCountDown(inputs, ws[k - 1], acts[k - 1]);
    }
  }

  /** When the channel is closed nobody has panicked, and nothing can move. */
  lemma ClosedIsDone(inputs: Inputs, w: World)
    requires Inv(inputs, w) && w.closer.ChannelClosed?
    ensures Stuck(w) && !Panicked(w)
  {
    forall i | 0 <= i < |w.tables| ensures !Running(w.tables[i].phase) {
      NoneRuns(inputs, w, i);
    }
  }

  /** A panic is never got over: the channel is not closed afterwards. */
  lemma PanicLasts(inputs: Inputs, w: World, a: Action)
    requires Inv(inputs, w) && Enabled(w, a) && Panicked(w)
    ensures Panicked(After(inputs, w, a)) && !After(inputs, w, a).closer.ChannelClosed?
  {
    var r := After(inputs, w, a);
    var i :| 0 <= i < |w.tables| && HasCrashed(w.tables[i]);
    assert ThreadInv(inputs, w, i);
    Frame(inputs, w, a, i);
    assert HasCrashed(r.tables[i]);
    NextKeepsInv(inputs, w, a);
    if r.closer.ChannelClosed? {
      ClosedIsDone(inputs, r);
    }
  }

  /**
   Runs are bounded in length by the tables, and one that can go no further has
   closed the channel exactly if nobody has panicked.
   */
  lemma ClosesOrPanics(inputs: Inputs, ws: seq<World>, acts: seq<Action>)
    requires Run(inputs, ws, acts)
    ensures |acts| <= Rank(inputs, Start(inputs))
    ensures var w := ws[|ws| - 1]; w.closer.ChannelClosed? <==> Stuck(w) && !Panicked(w)
  {
    var w := ws[|ws| - 1];
    RunsAreShort(inputs, ws, acts, |ws| - 1);
    InvAlways(inputs, ws, acts, |ws| - 1);
    if w.closer.ChannelClosed? {
      ClosedIsDone(inputs, w);
    } else if !Panicked(w) {
      var a := NoDeadlock(inputs, w);
    }
  }

  // ---------- reachable worlds ----------

  ghost predicate EndsIn(inputs: Inputs, ws: seq<World>, acts: seq<Action>, w: World) {
    Run(inputs, ws, acts) && ws[|ws| - 1] == w
  }

  ghost predicate Reachable(inputs: Inputs, w: World) {
    exists ws, acts :: EndsIn(inputs, ws, acts, w)
  }

  lemma ReachableInv(inputs: Inputs, w: World)
    requires Reachable(inputs, w)
    ensures Inv(inputs, w)
  {
    var ws, acts :| EndsIn(inputs, ws, acts, w);
    InvAlways(inputs, ws, acts, |ws| - 1);
  }

  lemma Extends(inputs: Inputs, w: World, a: Action, r: World)
    requires Reachable(inputs, w) && |inputs| == |w.tables| && Enabled(w, a) && r == After(inputs, w, a)
    ensures Reachable(inputs, r)
  {
    var ws, acts :| EndsIn(inputs, ws, acts, w);
    assert EndsIn(inputs, ws + [r], acts + [a], r);
  }

  lemma Reach(inputs: Inputs, w: World, a: Action) returns (r: World)
    requires Reachable(inputs, w) && Enabled(w, a)
    ensures Inv(inputs, w) && r == After(inputs, w, a) && Reachable(inputs, r) && Inv(inputs, r)
  {
    ReachableInv(inputs, w);
    r := After(inputs, w, a);
    Extends(inputs, w, a, r);
    ReachableInv(inputs, r);
  }

  // ---------- panics ----------

  ghost predicate AllProper(inputs: Inputs) {
    forall j :: 0 <= j < |inputs| ==> Proper(inputs[j])
  }

  predicate HasLoadDone(input: seq<Response>) {
    Cut(input) < |input|
  }

  /** A table that reports the end of its backlog, two further tables, and one of them added after it. */
  ghost predicate Hazardous(inputs: Inputs) {
    |inputs| >= 3 && exists i :: 0 <= i < |inputs| - 1 && HasLoadDone(inputs[i])
  }

  /** Thread `i` sleeps and was not released yet. */
  ghost predicate Sleeps(w: World, i: nat) {
    i < |w.tables| && w.tables[i].phase == Waiting(w.releases)
  }

  /** Waiters are released only once all tables are added, and nobody has panicked. */
  ghost predicate Calm(w: World) {
    && !Panicked(w)
    && (w.waiters > 0 ==> w.closer.Asleep? || exists i :: Sleeps(w, i))
    && (w.releaser.Some? ==> w.added == |w.tables|)
    && (w.releases > 0 ==> w.added == |w.tables| && Idle(w))
  }

  /** Without the hazard, when the last backlog outstanding ends with somebody waiting, all tables are added. */
  lemma LastOfAll(inputs: Inputs, w: World, i: nat)
    requires !Hazardous(inputs) && Inv(inputs, w) && Calm(w) && w.waiters > 0
    requires i < |w.tables| && InBacklog(w.tables[i].phase)
    ensures w.added == |w.tables|
  {
    if !w.closer.Asleep? {
      var j: nat :| Sleeps(w, j);
      assert ThreadInv(inputs, w, i) && ThreadInv(inputs, w, j);
      assert HasLoadDone(inputs[j]);
    }
  }

  lemma CalmKept(inputs: Inputs, w: World, a: Action)
    requires !Hazardous(inputs) && Inv(inputs, w) && Calm(w) && Enabled(w, a)
    ensures Calm(After(inputs, w, a))
  {
    var i, r := Actor(w, a), After(inputs, w, a);
    NextKeepsInv(inputs, w, a);
    if i < |w.tables| {
      assert ThreadInv(inputs, w, i);
      if InBacklog(w.tables[i].phase) {
        BacklogCounts(inputs, w, i);
        if w.waiters > 0 {
          LastOfAll(inputs, w, i);
        }
      }
    }
    NobodyCrashes(inputs, w, a);
    SleepersKept(inputs, w, a);
  }

  lemma NobodyCrashes(inputs: Inputs, w: World, a: Action)
    requires Inv(inputs, w) && Calm(w) && Enabled(w, a)
    ensures !Panicked(After(inputs, w, a))
  {
    var r := After(inputs, w, a);
    if a.Wake? {
      assert ThreadInv(inputs, w, a.i);
    }
    forall j | 0 <= j < |r.tables| ensures !HasCrashed(r.tables[j]) {
      CrashesAwake(inputs, w, a, j);
    }
  }

  /** A thread panics only as it wakes up. */
  lemma CrashesAwake(inputs: Inputs, w: World, a: Action, j: nat)
    requires |inputs| == |w.tables| && Enabled(w, a) && j < |w.tables| && !w.tables[j].phase.Crashed?
    requires a.Wake? ==> Idle(w)
    ensures j < |After(inputs, w, a).tables| && !After(inputs, w, a).tables[j].phase.Crashed?
  {
  }

  lemma SleepersKept(inputs: Inputs, w: World, a: Action)
    requires Inv(inputs, w) && Calm(w) && Enabled(w, a)
    ensures var r := After(inputs, w, a); r.waiters > 0 ==> r.closer.Asleep? || exists i :: Sleeps(r, i)
  {
    var r := After(inputs, w, a);
    if a.Wait? {
      assert r.waiters > w.waiters ==> Sleeps(r, a.i);
    }
    if w.waiters > 0 && !w.closer.Asleep? {
      var j: nat :| Sleeps(w, j);
      assert ThreadInv(inputs, w, j);
      Frame(inputs, w, a, j);
      assert r.releases == w.releases ==> Sleeps(r, j);
    }
  }

  lemma {:induction false} CalmAlways(inputs: Inputs, ws: seq<World>, acts: seq<Action>, k: nat)
    requires !Hazardous(inputs) && Run(inputs, ws, acts) && k < |ws|
    ensures Calm(ws[k])
  {
    if k > 0 {
      CalmAlways(inputs, ws, acts, k - 1);
      InvAlways(inputs, ws, acts, k - 1);
      CalmKept(inputs, ws[k - 1], acts[k - 1]);
    }
  }

  /** Without the hazard every run closes the channel: one that can go no further has closed it. */
  lemma AlwaysCloses(inputs: Inputs, ws: seq<World>, acts: seq<Action>)
    requires Run(inputs, ws, acts) && !Hazardous(inputs)
    ensures |acts| <= Rank(inputs, Start(inputs))
    ensures Stuck(ws[|ws| - 1]) <==> ws[|ws| - 1].closer.ChannelClosed?
  {
    CalmAlways(inputs, ws, acts, |ws| - 1);
    ClosesOrPanics(inputs, ws, acts);
  }

  // ---------- the hazard ----------

  /** Table `i` was added and has read nothing. */
  ghost predicate Fresh(w: World, i: nat) {
    i < w.added <= |w.tables| && w.tables[i] == Thread(Reading(false), 0)
  }

  /** The backlog of table `i` is over, and nothing else has happened since `w`. */
  ghost predicate GivesUp(inputs: Inputs, w: World, i: nat, r: World) {
    && |r.tables| == |w.tables| == |inputs| && i < |w.tables| && r.tables == w.tables[i := r.tables[i]]
    && r.added == w.added && r.closer == w.closer && r.backlogs == w.backlogs - 1
    && r.waiters == w.waiters && r.releases == w.releases
    && r.tables[i].phase == (if Misused(r) then Releasing(!HasLoadDone(inputs[i])) else AfterDone(!HasLoadDone(inputs[i])))
  }

  /** Reading and sending an item leaves everything but the thread and the channel. */
  lemma CopiesItem(inputs: Inputs, w: World, i: nat) returns (r: World)
    requires Reachable(inputs, w) && i < |w.tables| == |inputs|
    requires !w.closer.CallerPanicked? && w.tables[i].phase == Reading(false)
    requires w.tables[i].taken < |inputs[i]| && inputs[i][w.tables[i].taken].Item?
    ensures Reachable(inputs, r) && r == Moved(w, i, Reading(false), w.tables[i].taken + 1).(out := r.out)
  {
    var t := w.tables[i];
    var x := inputs[i][t.taken].data;
    var s := Moved(w, i, Holding(false, x), t.taken + 1);
    Extends(inputs, w, Read(i), s);
    r := Moved(s, i, Reading(false), t.taken + 1).(out := w.out + [Sent(i, x, false)]);
    Extends(inputs, s, Send(i), r);
    assert r.tables == w.tables[i := Thread(Reading(false), t.taken + 1)];
  }

  lemma EndsBacklog(inputs: Inputs, w: World, i: nat) returns (r: World)
    requires Reachable(inputs, w) && i < |w.tables| == |inputs|
    requires !w.closer.CallerPanicked? && w.tables[i].phase == Reading(false)
    requires w.tables[i].taken < |inputs[i]| ==> inputs[i][w.tables[i].taken].LoadDone?
    ensures Reachable(inputs, r) && GivesUp(inputs, w, i, r)
  {
    ReachableInv(inputs, w);
    BacklogCounts(inputs, w, i);
    assert ThreadInv(inputs, w, i);
    r := Reach(inputs, w, Read(i));
    if w.tables[i].taken == |inputs[i]| {
      r := Reach(inputs, r, Finish(i));
      assert r.tables == w.tables[i := r.tables[i]];
    }
  }

  /** A thread can read and send until its backlog is over. */
  lemma {:induction false} Drains(inputs: Inputs, w: World, i: nat) returns (r: World)
    requires Reachable(inputs, w) && i < |w.tables| == |inputs|
    requires !w.closer.CallerPanicked? && w.tables[i].phase == Reading(false)
    ensures Reachable(inputs, r) && GivesUp(inputs, w, i, r)
    decreases |inputs[i]| - w.tables[i].taken
  {
    var k := w.tables[i].taken;
    if k < |inputs[i]| && inputs[i][k].Item? {
      var s := CopiesItem(inputs, w, i);
      r := Drains(inputs, s, i);
      assert r.tables == w.tables[i := r.tables[i]];
    } else {
      r := EndsBacklog(inputs, w, i);
    }
  }

  /** The first `n` tables are added, none of their backlogs is outstanding, and nobody waits. */
  ghost predicate Settled(inputs: Inputs, w: World, n: nat) {
    w.added == n <= |w.tables| == |inputs| && w.closer.NotStarted? && Idle(w) && w.releases == 0
  }

  lemma {:induction false} SettlesAll(inputs: Inputs, n: nat) returns (r: World)
    requires n <= |inputs| && AllProper(inputs)
    ensures Reachable(inputs, r) && Settled(inputs, r, n)
    ensures n > 0 ==> r.tables[n - 1].phase == AfterDone(!HasLoadDone(inputs[n - 1]))
  {
    if n == 0 {
      r := Start(inputs);
      assert EndsIn(inputs, [r], [], r);
    } else {
      var w := SettlesAll(inputs, n - 1);
      w := Reach(inputs, w, Add);
      r := Drains(inputs, w, n - 1);
    }
  }

  /** Thread `i` waits, and thread `j` is about to release it, with a table left to add. */
  ghost predicate AtRisk(w: World, i: nat, j: nat) {
    && i < |w.tables| && j < |w.tables| && i != j && w.added < |w.tables| && w.closer.NotStarted?
    && Misused(w) && w.tables[i].phase == Waiting(w.releases) && w.tables[j].phase.Releasing?
  }

  /** Two tables added to settled ones: the first to end waits for the second. */
  lemma RunsIntoRisk(inputs: Inputs, n: nat, i: nat, j: nat) returns (r: World)
    requires AllProper(inputs) && n + 2 < |inputs| && ((i == n && j == n + 1) || (i == n + 1 && j == n))
    requires HasLoadDone(inputs[i])
    ensures Reachable(inputs, r) && AtRisk(r, i, j)
  {
    var w := AddsTwo(inputs, n);
    w := Drains(inputs, w, i);
    w := Reach(inputs, w, Wait(i));
    r := Drains(inputs, w, j);
  }

  lemma AddsTwo(inputs: Inputs, n: nat) returns (w: World)
    requires AllProper(inputs) && n + 2 < |inputs|
    ensures Reachable(inputs, w) && w.added == n + 2 < |w.tables| == |inputs| && w.closer.NotStarted?
    ensures w.backlogs == 2 && w.waiters == 0 && Fresh(w, n) && Fresh(w, n + 1)
  {
    w := SettlesAll(inputs, n);
    w := Reach(inputs, w, Add);
    w := Reach(inputs, w, Add);
  }

  /** From there both panics are near: of the caller at once, of the waiter when it wakes up after the table was added. */
  lemma RiskIsReal(inputs: Inputs, w: World, i: nat, j: nat) returns (thread: World, caller: World)
    requires Reachable(inputs, w) && AtRisk(w, i, j)
    ensures Reachable(inputs, thread) && i < |thread.tables| && HasCrashed(thread.tables[i])
    ensures Reachable(inputs, caller) && caller.closer.CallerPanicked?
  {
    caller := Reach(inputs, w, Add);
    assert ThreadInv(inputs, w, i);
    thread := Reach(inputs, w, Release(j));
    thread := Reach(inputs, thread, Add);
    thread := Reach(inputs, thread, Wake(i));
  }

  lemma HazardPanics(inputs: Inputs) returns (i: nat, thread: World, caller: World)
    requires Hazardous(inputs) && AllProper(inputs)
    ensures Reachable(inputs, thread) && i < |thread.tables| && HasCrashed(thread.tables[i])
    ensures Reachable(inputs, caller) && caller.closer.CallerPanicked?
  {
    i :| 0 <= i < |inputs| - 1 && HasLoadDone(inputs[i]);
    var j, n := if i == 0 then 1 else i - 1, if i == 0 then 0 else i - 1;
    var w := RunsIntoRisk(inputs, n, i, j);
    thread, caller := RiskIsReal(inputs, w, i, j);
  }

  /** Some thread has panicked. */
  ghost predicate ThreadPanicked(w: World) {
    exists i :: 0 <= i < |w.tables| && HasCrashed(w.tables[i])
  }

  ghost predicate ThreadMayPanic(inputs: Inputs) {
    exists w :: Reachable(inputs, w) && ThreadPanicked(w)
  }

  ghost predicate CallerMayPanic(inputs: Inputs) {
    exists w :: Reachable(inputs, w) && w.closer.CallerPanicked?
  }

  /**
   A thread panics in some interleaving, and so does the caller, exactly if
   there are three tables and one other than the last reports the end of its
   backlog.
   */
  lemma PanicIff(inputs: Inputs)
    requires AllProper(inputs)
    ensures ThreadMayPanic(inputs) <==> Hazardous(inputs)
    ensures CallerMayPanic(inputs) <==> Hazardous(inputs)
  {
    if Hazardous(inputs) {
      var i, thread, caller := HazardPanics(inputs);
      assert ThreadPanicked(thread);
    } else {
      forall w | Reachable(inputs, w) ensures !Panicked(w) {
        var ws, acts :| EndsIn(inputs, ws, acts, w);
        CalmAlways(inputs, ws, acts, |ws| - 1);
      }
    }
  }

  /** For example with three tables of which the first two only report the end of an empty backlog. */
  lemma ReusedTooSoon()
    ensures ThreadMayPanic([[LoadDone], [LoadDone], [Item("b")]])
  {
    var inputs := [[LoadDone], [LoadDone], [Item("b")]];
    assert HasLoadDone(inputs[0]);
    PanicIff(inputs);
  }

  /** Every run can go on until nothing moves; a panic stays. */
  lemma {:induction false} GoesOn(inputs: Inputs, w: World) returns (r: World)
    requires Reachable(inputs, w) && |w.tables| == |inputs|
    ensures Reachable(inputs, r) && Stuck(r) && (Panicked(w) ==> Panicked(r))
    decreases Rank(inputs, w)
  {
    r := w;
    if !Stuck(w) {
      var a :| Enabled(w, a);
      var v := Reach(inputs, w, a);
      ActionsCountDown(inputs, w, a);
      if Panicked(w) {
        PanicLasts(inputs, w, a);
      }
      r := GoesOn(inputs, v);
    }
  }

  /** So every run that can go no further has closed the channel exactly if there is no hazard. */
  lemma AlwaysClosesIff(inputs: Inputs)
    requires AllProper(inputs)
    ensures (forall w :: Reachable(inputs, w) && Stuck(w) ==> w.closer.ChannelClosed?) <==> !Hazardous(inputs)
  {
    if Hazardous(inputs) {
      var i, thread, caller := HazardPanics(inputs);
      ReachableInv(inputs, thread);
      var w := GoesOn(inputs, thread);
      ReachableInv(inputs, w);
      if w.closer.ChannelClosed? {
        ClosedIsDone(inputs, w);
      }
    } else {
      forall w | Reachable(inputs, w) && Stuck(w) ensures w.closer.ChannelClosed? {
        var ws, acts :| EndsIn(inputs, ws, acts, w);
        AlwaysCloses(inputs, ws, acts);
      }
    }
  }

  // ---------- the barrier between the threads ----------

  /** Every late item comes after all backlog items of all tables. */
  ghost predicate LateAfterBacklogs(inputs: Inputs, out: seq<Out>) {
    forall p, i :: 0 <= p < |out| && out[p].Sent? && out[p].late && 0 <= i < |inputs| ==>
                     Items(inputs[i][..Cut(inputs[i])]) <= From(out[..p], i)
  }

  predicate HasBacklog(input: seq<Response>) {
    Cut(input) > 0
  }

  /** Something follows the end of the backlog. */
  predicate HasLate(input: seq<Response>) {
    Cut(input) + 1 < |input|
  }

  /** A table with late items is added before one with a backlog. */
  ghost predicate Overtakable(inputs: Inputs) {
    exists i, j :: 0 <= i < j < |inputs| && HasLate(inputs[i]) && HasBacklog(inputs[j])
  }

  /** The thread has passed the barrier. */
  predicate HasPassed(p: Phase) {
    (p.Reading? || p.Holding? || p.Ending?) && p.done
  }

  /** Whoever has passed, all tables added before it have given up their backlogs. */
  ghost predicate InTurn(w: World) {
    forall i, j :: 0 <= j < i < |w.tables| && HasPassed(w.tables[i].phase) ==> !InBacklog(w.tables[j].phase)
  }

  lemma InTurnKept(inputs: Inputs, w: World, a: Action)
    requires Inv(inputs, w) && Enabled(w, a) && InTurn(w)
    ensures InTurn(After(inputs, w, a))
  {
    var r := After(inputs, w, a);
    NextKeepsInv(inputs, w, a);
    forall i, j | 0 <= j < i < |r.tables| && HasPassed(r.tables[i].phase)
      ensures !InBacklog(r.tables[j].phase)
    {
      if r.backlogs == 0 {
        NoneLoads(inputs, r, j);
      } else {
        assert ThreadInv(inputs, w, i) && ThreadInv(inputs, w, j);
        InTurnAt(inputs, w, a, i, j);
      }
    }
  }

  /** With a backlog outstanding nobody passes, and a table that was added gets no backlog again. */
  lemma InTurnAt(inputs: Inputs, w: World, a: Action, i: nat, j: nat)
    requires |inputs| == |w.tables| && Enabled(w, a) && InTurn(w) && j < i < |w.tables|
    requires (w.tables[i].phase.NotAdded? <==> i >= w.added) && (w.tables[j].phase.NotAdded? <==> j >= w.added)
    requires After(inputs, w, a).backlogs != 0 && HasPassed(After(inputs, w, a).tables[i].phase)
    ensures !InBacklog(After(inputs, w, a).tables[j].phase)
  {
    assert HasPassed(w.tables[i].phase);
    assert !InBacklog(w.tables[j].phase);
  }

  lemma LateAppends(inputs: Inputs, out: seq<Out>, o: Out)
    requires LateAfterBacklogs(inputs, out)
    requires o.Sent? && o.late ==> forall i :: 0 <= i < |inputs| ==> Items(inputs[i][..Cut(inputs[i])]) <= From(out, i)
    ensures LateAfterBacklogs(inputs, out + [o])
  {
    var out' := out + [o];
    assert out'[..|out|] == out;
    forall p, i | 0 <= p < |out'| && out'[p].Sent? && out'[p].late && 0 <= i < |inputs|
      ensures Items(inputs[i][..Cut(inputs[i])]) <= From(out'[..p], i)
    {
      assert p < |out| ==> out'[..p] == out[..p];
    }
  }

  /** When a thread sends a late item, the backlogs of all tables up to its own are on the channel. */
  lemma EarlierSent(inputs: Inputs, w: World, i: nat, j: nat)
    requires Inv(inputs, w) && InTurn(w) && j <= i < |w.tables| && w.tables[i].phase.Holding? && w.tables[i].phase.done
    ensures Items(inputs[j][..Cut(inputs[j])]) <= From(w.out, j)
  {
    assert ThreadInv(inputs, w, i);
    assert ThreadInv(inputs, w, j);
    ItemsPrefix(inputs[j], Cut(inputs[j]), Handed(w.tables[j]));
  }

  lemma BarrierStep(inputs: Inputs, w: World, a: Action)
    requires Inv(inputs, w) && Enabled(w, a) && InTurn(w) && !Overtakable(inputs) && LateAfterBacklogs(inputs, w.out)
    ensures LateAfterBacklogs(inputs, After(inputs, w, a).out)
  {
    if a.Send? {
      if w.tables[a.i].phase.done {
        assert ThreadInv(inputs, w, a.i);
        forall j | 0 <= j < |inputs| ensures Items(inputs[j][..Cut(inputs[j])]) <= From(w.out, j) {
          if j <= a.i {
            EarlierSent(inputs, w, a.i, j);
          } else {
            assert HasLate(inputs[a.i]) && !HasBacklog(inputs[j]);
          }
        }
      }
      LateAppends(inputs, w.out, Sent(a.i, w.tables[a.i].phase.data, w.tables[a.i].phase.done));
    } else if a.Mark? {
      LateAppends(inputs, w.out, Marker);
    }
  }

  lemma {:induction false} BarrierHolds(inputs: Inputs, ws: seq<World>, acts: seq<Action>, k: nat)
    requires Run(inputs, ws, acts) && k < |ws|
    ensures InTurn(ws[k])
    ensures !Overtakable(inputs) ==> LateAfterBacklogs(inputs, ws[k].out)
  {
    if k > 0 {
      BarrierHolds(inputs, ws, acts, k - 1);
      InvAlways(inputs, ws, acts, k - 1);
      InTurnKept(inputs, ws[k - 1], acts[k - 1]);
      if !Overtakable(inputs) {
        BarrierStep(inputs, ws[k - 1], acts[k - 1]);
      }
    }
  }

  lemma BacklogIsSomething(input: seq<Response>)
    requires HasBacklog(input)
    ensures Items(input[..Cut(input)]) != []
  {
    assert input[..0] == [];
    ItemsStep(input, 0);
    ItemsPrefix(input, 1, Cut(input));
  }

  /** A thread that has just passed sends its first late item. */
  lemma SendsLate(inputs: Inputs, w: World, i: nat) returns (r: World)
    requires Reachable(inputs, w) && i < |w.tables| == |inputs| && HasLate(inputs[i]) && !w.closer.CallerPanicked?
    requires w.tables[i].phase.Arriving? && w.backlogs == 0
    ensures Reachable(inputs, r) && exists x :: r.out == w.out + [Sent(i, x, true)]
  {
    ReachableInv(inputs, w);
    assert ThreadInv(inputs, w, i);
    var v := Reach(inputs, w, Wait(i));
    v := Reach(inputs, v, Read(i));
    r := Reach(inputs, v, Send(i));
    assert r.out == w.out + [Sent(i, v.tables[i].phase.data, true)];
  }

  /** Whenever it is possible at all, late items do overtake a backlog, in some interleaving. */
  lemma Overtakes(inputs: Inputs) returns (r: World)
    requires Overtakable(inputs) && AllProper(inputs)
    ensures Reachable(inputs, r) && !LateAfterBacklogs(inputs, r.out)
  {
    var i, j :| 0 <= i < j < |inputs| && HasLate(inputs[i]) && HasBacklog(inputs[j]);
    var w := SettlesAll(inputs, i + 1);
    r := SendsLate(inputs, w, i);
    ReachableInv(inputs, w);
    assert ThreadInv(inputs, w, j);
    BacklogIsSomething(inputs[j]);
    assert inputs[j][..0] == [];
    assert r.out[..|w.out|] == w.out && r.out[|w.out|].late;
  }

  /**
   Late items come after all backlogs in every interleaving exactly if no
   table with late items is added before a table with a backlog.
   */
  lemma BarrierIff(inputs: Inputs)
    requires AllProper(inputs)
    ensures (forall w :: Reachable(inputs, w) ==> LateAfterBacklogs(inputs, w.out)) <==> !Overtakable(inputs)
  {
    if Overtakable(inputs) {
      var w := Overtakes(inputs);
    } else {
      forall w | Reachable(inputs, w) ensures LateAfterBacklogs(inputs, w.out) {
        var ws, acts :| EndsIn(inputs, ws, acts, w);
        BarrierHolds(inputs, ws, acts, |ws| - 1);
      }
    }
  }

  /**
   For example with two tables.  The thread of the first reaches the barrier
   before the second table is added and passes at once; its later items
   overtake the backlog of the second.
   */
  lemma HurriedRun() returns (inputs: Inputs, w: World)
    ensures inputs == [[LoadDone, Item("a")], [Item("b")]]
    ensures Reachable(inputs, w) && !LateAfterBacklogs(inputs, w.out)
  {
    inputs := [[LoadDone, Item("a")], [Item("b")]];
    assert HasLate(inputs[0]) && HasBacklog(inputs[1]);
    w := Overtakes(inputs);
  }
}
