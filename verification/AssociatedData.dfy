/**
 The associated-data provider: one thread per table copies the responses of
 that table to a shared channel, and a further thread marks on that channel
 that all backlogs are in, and closes it at the end.  The threads synchronise
 on two wait groups, one counting backlogs, one counting threads.

 The tables are added one after another while the first threads already run.
 So the wait group of the backlogs may be added to while threads wait on it,
 which Go's wait groups do not allow; they are modelled step by step, with the
 checks that make them panic.  A panic of a thread ends that thread.  A panic of
 the caller that adds the tables ends the model.
 */
module AssociatedData {
  import opened Common
  import opened Tallies

  datatype Response = Item(data: string) | LoadDone

  /** The shared channel: the items, told apart by table and by whether they came after the table's load-done, and the marker. */
  datatype Out = Sent(table: nat, data: string, late: bool) | Marker

  /** A thread that sleeps remembers how often waiters had been released when it fell asleep. */
  datatype Phase =
    | NotAdded
    | Reading(done: bool)
    | Holding(done: bool, data: string)
    | Releasing(leaving: bool)  // has counted the last backlog down, about to release the waiters
    | Arriving                  // has given up its backlog, about to wait for the others
    | Waiting(mark: nat)
    | Ending(done: bool)
    | Leaving
    | Gone
    | Crashed

  datatype Thread = Thread(phase: Phase, taken: nat)

  datatype Closer = NotStarted | CallerPanicked | Starting | Asleep(mark: nat) | Marking | AwaitingThreads | ChannelClosed

  /**
   `backlogs` and `waiters` are the two halves of the state of the first wait
   group, `threads` is the count of the second.  `releases` tells how often the
   waiters of the first were released, and `releaser` who is about to do it.
   */
  datatype World = World(added: nat, closer: Closer, backlogs: int, waiters: nat, releases: nat, releaser: Option<nat>,
                         threads: int, tables: seq<Thread>, out: seq<Out>)

  type Inputs = seq<seq<Response>>

  // ---------- inputs and output ----------

  predicate IsItem(r: Response) {
    r.Item?
  }

  /** Where the backlog of a table ends. */
  function Cut(input: seq<Response>): (k: nat)
    ensures k <= |input| && (forall j :: 0 <= j < k ==> input[j].Item?) && (k < |input| ==> input[k].LoadDone?)
  {
    While(input, IsItem)
  }

  /** A table reports the end of its backlog at most once. */
  ghost predicate Proper(input: seq<Response>) {
    forall k :: Cut(input) < k < |input| ==> input[k].Item?
  }

  function Items(input: seq<Response>): (xs: seq<string>) {
    if input == [] then []
    else
      var last := input[|input| - 1];
      Items(input[..|input| - 1]) + if last.Item? then [last.data] else []
  }

  function From(out: seq<Out>, i: nat): (xs: seq<string>) {
    if out == [] then []
    else
      var last := out[|out| - 1];
      From(out[..|out| - 1], i) + if last.Sent? && last.table == i then [last.data] else []
  }

  lemma ItemsStep(input: seq<Response>, k: nat)
    requires k < |input|
    ensures Items(input[..k + 1]) == Items(input[..k]) + if input[k].Item? then [input[k].data] else []
  {
    assert input[..k + 1][..k] == input[..k];
  }

  lemma {:induction false} ItemsPrefix(input: seq<Response>, j: nat, k: nat)
    requires j <= k <= |input|
    ensures Items(input[..j]) <= Items(input[..k])
    decreases k
  {
    if j < k {
      ItemsPrefix(input, j, k - 1);
      ItemsStep(input, k - 1);
    }
  }

  lemma FromStep(out: seq<Out>, o: Out, i: nat)
    ensures From(out + [o], i) == From(out, i) + if o.Sent? && o.table == i then [o.data] else []
  {
    assert (out + [o])[..|out|] == out;
  }

  // ---------- counting ----------

  /** The thread has not yet given its backlog up to the count. */
  predicate InBacklog(p: Phase) {
    (p.Reading? || p.Holding? || p.Ending?) && !p.done
  }

  /** The thread has not left, or never will. */
  predicate Running(p: Phase) {
    !p.NotAdded? && !p.Gone?
  }

  predicate Loads(t: Thread) {
    InBacklog(t.phase)
  }

  predicate Runs(t: Thread) {
    Running(t.phase)
  }

  // ---------- steps ----------

  datatype Action =
    | Add | Read(i: nat) | Send(i: nat) | Release(i: nat) | Wait(i: nat) | Wake(i: nat) | Finish(i: nat) | Leave(i: nat)
    | StartCloser | CloserWait | CloserWake | Mark | Close

  /** The threads after thread `i` moved to another phase. */
  function Moved(w: World, i: nat, p: Phase, taken: nat): (r: World)
    requires i < |w.tables|
  {
    w.(tables := w.tables[i := Thread(p, taken)])
  }

  function AfterDone(leaving: bool): (p: Phase) {
    if leaving then Leaving else Arriving
  }

  /** Thread `i` counts its backlog down; if it is the last one and somebody waits, it has waiters to release. */
  function Done(w: World, i: nat, leaving: bool, taken: nat): (r: World)
    requires i < |w.tables|
  {
    if w.backlogs == 1 && w.waiters > 0 then
      Moved(w, i, Releasing(leaving), taken).(backlogs := 0, releaser := Some(i))
    else
      Moved(w, i, AfterDone(leaving), taken).(backlogs := w.backlogs - 1)
  }

  /** A thread takes the next response of its table. */
  function AfterRead(input: seq<Response>, w: World, i: nat): (r: World)
    requires i < |w.tables| && w.tables[i].phase.Reading?
  {
    var t := w.tables[i];
    if t.taken >= |input| then Moved(w, i, Ending(t.phase.done), t.taken)
    else match input[t.taken]
      case Item(x) => Moved(w, i, Holding(t.phase.done, x), t.taken + 1)
      case LoadDone => Done(w, i, false, t.taken + 1)
  }

  /** A wait group that is added to while the count is zero and there are waiters left makes the caller panic. */
  predicate Misused(w: World) {
    w.backlogs == 0 && w.waiters > 0
  }

  /** A waiter that wakes up panics if the wait group is in use again. */
  predicate Idle(w: World) {
    w.backlogs == 0 && w.waiters == 0
  }

  ghost predicate Enabled(w: World, a: Action) {
    && !w.closer.CallerPanicked?
    && match a
       case Add => w.added < |w.tables| && w.closer.NotStarted?
       case Read(i) => i < |w.tables| && w.tables[i].phase.Reading?
       case Send(i) => i < |w.tables| && w.tables[i].phase.Holding?
       case Release(i) => i < |w.tables| && w.tables[i].phase.Releasing?
       case Wait(i) => i < |w.tables| && w.tables[i].phase.Arriving?
       case Wake(i) => i < |w.tables| && w.tables[i].phase.Waiting? && w.releases > w.tables[i].phase.mark
       case Finish(i) => i < |w.tables| && w.tables[i].phase.Ending?
       case Leave(i) => i < |w.tables| && w.tables[i].phase.Leaving?
       case StartCloser => w.added == |w.tables| && w.closer.NotStarted?
       case CloserWait => w.closer.Starting?
       case CloserWake => w.closer.Asleep? && w.releases > w.closer.mark
       case Mark => w.closer.Marking?
       case Close => w.closer.AwaitingThreads? && w.threads == 0
  }

  function After(inputs: Inputs, w: World, a: Action): (r: World)
    requires Enabled(w, a) && |inputs| == |w.tables|
  {
    match a
    case Add =>
      if Misused(w) then w.(closer := CallerPanicked)
      else Moved(w, w.added, Reading(false), 0).(added := w.added + 1, backlogs := w.backlogs + 1, threads := w.threads + 1)
    case Read(i) => AfterRead(inputs[i], w, i)
    case Send(i) =>
      var p := w.tables[i].phase;
      Moved(w, i, Reading(p.done), w.tables[i].taken).(out := w.out + [Sent(i, p.data, p.done)])
    case Release(i) =>
      Moved(w, i, AfterDone(w.tables[i].phase.leaving), w.tables[i].taken)
      .(waiters := 0, releases := w.releases + 1, releaser := None)
    case Wait(i) =>
      if w.backlogs == 0 then Moved(w, i, Reading(true), w.tables[i].taken)
      else Moved(w, i, Waiting(w.releases), w.tables[i].taken).(waiters := w.waiters + 1)
    case Wake(i) => Moved(w, i, if Idle(w) then Reading(true) else Crashed, w.tables[i].taken)
    case Finish(i) =>
      if w.tables[i].phase.done then Moved(w, i, Leaving, w.tables[i].taken) else Done(w, i, true, w.tables[i].taken)
    case Leave(i) => Moved(w, i, Gone, w.tables[i].taken).(threads := w.threads - 1)
    case StartCloser => w.(closer := Starting)
    case CloserWait => if w.backlogs == 0 then w.(closer := Marking) else w.(closer := Asleep(w.releases), waiters := w.waiters + 1)
    case CloserWake => w.(closer := Marking)
    case Mark => w.(closer := AwaitingThreads, out := w.out + [Marker])
    case Close => w.(closer := ChannelClosed)
  }

  function Start(inputs: Inputs): (w: World) {
    World(0, NotStarted, 0, 0, 0, None, 0, seq(|inputs|, _ => Thread(NotAdded, 0)), [])
  }

  /** A run, given by the actions taken. */
  ghost predicate Run(inputs: Inputs, ws: seq<World>, acts: seq<Action>) {
    && |ws| == |acts| + 1 && ws[0] == Start(inputs)
    && (forall i :: 0 <= i < |inputs| ==> Proper(inputs[i]))
    && forall k :: 0 <= k < |acts| ==>
                     |ws[k].tables| == |inputs| && Enabled(ws[k], acts[k]) && ws[k + 1] == After(inputs, ws[k], acts[k])
  }

  // ---------- the invariant ----------

  function Handed(t: Thread): (n: nat) {
    if t.phase.Holding? && t.taken > 0 then t.taken - 1 else t.taken
  }

  ghost predicate InPlace(input: seq<Response>, t: Thread) {
    && t.taken <= |input|
    && match t.phase
       case NotAdded => t.taken == 0
       case Reading(done) => if done then t.taken > Cut(input) else t.taken <= Cut(input)
       case Holding(done, x) =>
         && t.taken > 0 && input[t.taken - 1] == Item(x)
         && if done then t.taken > Cut(input) + 1 else t.taken <= Cut(input)
       case Releasing(leaving) => if leaving then t.taken == |input| else t.taken == Cut(input) + 1
       case Arriving | Waiting(_) | Crashed => t.taken == Cut(input) + 1
       case Ending(done) => t.taken == |input| && (done ==> t.taken > Cut(input))
       case Leaving | Gone => t.taken == |input|
  }

  ghost predicate ThreadInv(inputs: Inputs, w: World, i: nat)
    requires i < |w.tables| == |inputs|
  {
    var p := w.tables[i].phase;
    && Proper(inputs[i])
    && (p.NotAdded? <==> i >= w.added)
    && InPlace(inputs[i], w.tables[i])
    && From(w.out, i) == Items(inputs[i][..Handed(w.tables[i])])
    && (p.Releasing? <==> w.releaser == Some(i))
    && (p.Waiting? ==> p.mark <= w.releases && (p.mark == w.releases ==> w.waiters > 0))
  }

  function Markers(out: seq<Out>): (n: nat) {
    if out == [] then 0 else Markers(out[..|out| - 1]) + One(out[|out| - 1].Marker?)
  }

  predicate Marked(c: Closer) {
    c.AwaitingThreads? || c.ChannelClosed?
  }

  /** What the closer knows. */
  ghost predicate CloserInv(w: World) {
    && (!w.closer.NotStarted? && !w.closer.CallerPanicked? ==> w.added == |w.tables|)
    && (w.closer.Asleep? ==> w.closer.mark <= w.releases && (if w.closer.mark == w.releases then w.waiters > 0 else Idle(w)))
    && (w.closer.Marking? || Marked(w.closer) ==> w.backlogs == 0)
    && (w.closer.ChannelClosed? ==> w.threads == 0)
  }

  ghost predicate Inv(inputs: Inputs, w: World) {
    && |w.tables| == |inputs| && w.added <= |w.tables|
    && w.backlogs == HowMany(w.tables, Loads)
    && w.threads == HowMany(w.tables, Runs)
    && (w.releaser.Some? <==> Misused(w)) && (w.releaser.Some? ==> w.releaser.value < |w.tables|)
    && CloserInv(w) && Markers(w.out) == One(Marked(w.closer))
    && forall i :: 0 <= i < |w.tables| ==> ThreadInv(inputs, w, i)
  }

  lemma MarkersStep(out: seq<Out>, o: Out)
    ensures Markers(out + [o]) == Markers(out) + One(o.Marker?)
  {
    assert (out + [o])[..|out|] == out;
  }

  lemma StartInv(inputs: Inputs)
    requires forall i :: 0 <= i < |inputs| ==> Proper(inputs[i])
    ensures Inv(inputs, Start(inputs))
  {
    HowManyNone(Start(inputs).tables, Loads);
    HowManyNone(Start(inputs).tables, Runs);
  }

  /** With a backlog outstanding nobody is releasing. */
  lemma BacklogCounts(inputs: Inputs, w: World, i: nat)
    requires Inv(inputs, w) && i < |w.tables| && InBacklog(w.tables[i].phase)
    ensures w.backlogs > 0 && w.releaser.None?
  {
    HowManyNone(w.tables, Loads);
    assert Loads(w.tables[i]);
  }

  /** The thread of an action. */
  function Actor(w: World, a: Action): (i: nat) {
    match a
    case Add => if Misused(w) then |w.tables| else w.added
    case StartCloser | CloserWait | CloserWake | Mark | Close => |w.tables|
    case _ => a.i
  }

  lemma Changed(ts: seq<Thread>, i: nat, t: Thread)
    requires i < |ts|
    ensures HowMany(ts[i := t], Loads) == HowMany(ts, Loads) - One(InBacklog(ts[i].phase)) + One(InBacklog(t.phase))
    ensures HowMany(ts[i := t], Runs) == HowMany(ts, Runs) - One(Running(ts[i].phase)) + One(Running(t.phase))
  {
    HowManyChange(ts, Loads, i, t);
    HowManyChange(ts, Runs, i, t);
  }

  ghost predicate Counted(w: World) {
    w.backlogs == HowMany(w.tables, Loads) && w.threads == HowMany(w.tables, Runs)
  }

  lemma MovedCounts(w: World, i: nat, p: Phase, taken: nat)
    requires Counted(w) && i < |w.tables|
    ensures var r := Moved(w, i, p, taken);
      && HowMany(r.tables, Loads) == w.backlogs - One(InBacklog(w.tables[i].phase)) + One(InBacklog(p))
      && HowMany(r.tables, Runs) == w.threads - One(Running(w.tables[i].phase)) + One(Running(p))
  {
    Changed(w.tables, i, Thread(p, taken));
  }

  lemma DoneCounts(w: World, i: nat, leaving: bool, taken: nat)
    requires Counted(w) && i < |w.tables| && InBacklog(w.tables[i].phase)
    ensures Counted(Done(w, i, leaving, taken))
  {
    MovedCounts(w, i, Releasing(leaving), taken);
    MovedCounts(w, i, AfterDone(leaving), taken);
  }

  lemma ReadCounts(inputs: Inputs, w: World, i: nat)
    requires Inv(inputs, w) && Enabled(w, Read(i))
    ensures Counted(After(inputs, w, Read(i)))
  {
    var t := w.tables[i];
    assert ThreadInv(inputs, w, i);
    if t.taken >= |inputs[i]| {
      MovedCounts(w, i, Ending(t.phase.done), t.taken);
    } else if inputs[i][t.taken].Item? {
      MovedCounts(w, i, Holding(t.phase.done, inputs[i][t.taken].data), t.taken + 1);
    } else {
      DoneCounts(w, i, false, t.taken + 1);
    }
  }

  lemma CountsKept(inputs: Inputs, w: World, a: Action)
    requires Inv(inputs, w) && Enabled(w, a)
    ensures Counted(After(inputs, w, a))
  {
    var i := Actor(w, a);
    if a.Read? {
      ReadCounts(inputs, w, i);
    } else if a.Finish? && !w.tables[i].phase.done {
      DoneCounts(w, i, true, w.tables[i].taken);
    } else if i < |w.tables| {
      assert ThreadInv(inputs, w, i);
      var t := After(inputs, w, a).tables[i];
      MovedCounts(w, i, t.phase, t.taken);
    }
  }

  /** Reading hands nothing over. */
  lemma ReadInPlace(input: seq<Response>, t: Thread)
    requires Proper(input) && t.phase.Reading? && InPlace(input, t)
    ensures t.taken == |input| ==> InPlace(input, Thread(Ending(t.phase.done), t.taken))
    ensures t.taken < |input| && input[t.taken].Item? ==> InPlace(input, Thread(Holding(t.phase.done, input[t.taken].data), t.taken + 1))
    ensures t.taken < |input| && input[t.taken].LoadDone? ==>
              && !t.phase.done && Cut(input) == t.taken
              && Items(input[..t.taken + 1]) == Items(input[..t.taken])
  {
    if t.taken < |input| {
      ItemsStep(input, t.taken);
    }
  }

  lemma ReaderKept(inputs: Inputs, w: World, i: nat)
    requires Inv(inputs, w) && Enabled(w, Read(i))
    ensures ThreadInv(inputs, After(inputs, w, Read(i)), i)
  {
    assert ThreadInv(inputs, w, i);
    ReadInPlace(inputs[i], w.tables[i]);
  }

  lemma SendHandsOver(input: seq<Response>, t: Thread, out: seq<Out>, i: nat)
    requires t.phase.Holding? && InPlace(input, t) && From(out, i) == Items(input[..t.taken - 1])
    ensures InPlace(input, Thread(Reading(t.phase.done), t.taken))
    ensures From(out + [Sent(i, t.phase.data, t.phase.done)], i) == Items(input[..t.taken])
  {
    ItemsStep(input, t.taken - 1);
    FromStep(out, Sent(i, t.phase.data, t.phase.done), i);
  }

  lemma SenderKept(inputs: Inputs, w: World, i: nat)
    requires Inv(inputs, w) && Enabled(w, Send(i))
    ensures ThreadInv(inputs, After(inputs, w, Send(i)), i)
  {
    assert ThreadInv(inputs, w, i);
    var t, r := w.tables[i], After(inputs, w, Send(i));
    SendHandsOver(inputs[i], t, w.out, i);
    assert r.tables[i] == Thread(Reading(t.phase.done), t.taken);
    assert r.out == w.out + [Sent(i, t.phase.data, t.phase.done)];
  }

  lemma ActorKept(inputs: Inputs, w: World, a: Action)
    requires Inv(inputs, w) && Enabled(w, a) && Actor(w, a) < |w.tables|
    ensures ThreadInv(inputs, After(inputs, w, a), Actor(w, a))
  {
    if a.Read? {
      ReaderKept(inputs, w, a.i);
    } else if a.Send? {
      SenderKept(inputs, w, a.i);
    } else {
      assert ThreadInv(inputs, w, Actor(w, a));
    }
  }

  /** What an action leaves of the threads it is not about, and of the wait group. */
  lemma Frame(inputs: Inputs, w: World, a: Action, j: nat)
    requires Inv(inputs, w) && Enabled(w, a) && j < |w.tables| && j != Actor(w, a)
    ensures var r := After(inputs, w, a);
            && |r.tables| == |w.tables| && r.tables[j] == w.tables[j]
            && (j >= r.added <==> j >= w.added)
            && (r.releaser == Some(j) <==> w.releaser == Some(j))
            && (r.releases > w.releases || (r.releases == w.releases && r.waiters >= w.waiters))
  {
    if Actor(w, a) < |w.tables| {
      assert ThreadInv(inputs, w, Actor(w, a));
      if InBacklog(w.tables[Actor(w, a)].phase) {
        BacklogCounts(inputs, w, Actor(w, a));
      }
    }
  }

  lemma FromOthers(inputs: Inputs, w: World, a: Action, j: nat)
    requires Enabled(w, a) && |inputs| == |w.tables| && j < |w.tables| && j != Actor(w, a)
    ensures From(After(inputs, w, a).out, j) == From(w.out, j)
  {
    if a.Send? {
      FromStep(w.out, Sent(a.i, w.tables[a.i].phase.data, w.tables[a.i].phase.done), j);
    } else if a.Mark? {
      FromStep(w.out, Marker, j);
    }
  }

  lemma OthersKept(inputs: Inputs, w: World, a: Action, j: nat)
    requires Inv(inputs, w) && Enabled(w, a) && j < |w.tables| && j != Actor(w, a)
    ensures ThreadInv(inputs, After(inputs, w, a), j)
  {
    assert ThreadInv(inputs, w, j);
    Frame(inputs, w, a, j);
    FromOthers(inputs, w, a, j);
  }

  /** The first wait group and its releaser stay in step. */
  lemma ReleaserKept(inputs: Inputs, w: World, a: Action)
    requires Inv(inputs, w) && Enabled(w, a)
    ensures var r := After(inputs, w, a);
      (r.releaser.Some? <==> Misused(r)) && (r.releaser.Some? ==> r.releaser.value < |r.tables|)
  {
    if Actor(w, a) < |w.tables| {
      assert ThreadInv(inputs, w, Actor(w, a));
      if InBacklog(w.tables[Actor(w, a)].phase) {
        BacklogCounts(inputs, w, Actor(w, a));
      }
    }
  }

  lemma CloserKept(inputs: Inputs, w: World, a: Action)
    requires Inv(inputs, w) && Enabled(w, a)
    ensures CloserInv(After(inputs, w, a))
  {
    HowManyNone(w.tables, Runs);
    if Actor(w, a) < |w.tables| {
      assert ThreadInv(inputs, w, Actor(w, a));
      assert a.Add? || Runs(w.tables[Actor(w, a)]);
      if InBacklog(w.tables[Actor(w, a)].phase) {
        BacklogCounts(inputs, w, Actor(w, a));
      }
    }
  }

  lemma MarkersKept(inputs: Inputs, w: World, a: Action)
    requires Markers(w.out) == One(Marked(w.closer)) && Enabled(w, a) && |inputs| == |w.tables|
    ensures Markers(After(inputs, w, a).out) == One(Marked(After(inputs, w, a).closer))
  {
    if a.Send? {
      MarkersStep(w.out, Sent(a.i, w.tables[a.i].phase.data, w.tables[a.i].phase.done));
    } else if a.Mark? {
      MarkersStep(w.out, Marker);
    }
  }

  lemma NextKeepsInv(inputs: Inputs, w: World, a: Action)
    requires Inv(inputs, w) && Enabled(w, a)
    ensures Inv(inputs, After(inputs, w, a))
  {
    var r := After(inputs, w, a);
    CountsKept(inputs, w, a);
    ReleaserKept(inputs, w, a);
    CloserKept(inputs, w, a);
    MarkersKept(inputs, w, a);
    forall j | 0 <= j < |r.tables| ensures ThreadInv(inputs, r, j) {
      if j == Actor(w, a) {
        ActorKept(inputs, w, a);
      } else {
        OthersKept(inputs, w, a, j);
      }
    }
  }

  lemma {:induction false} InvAlways(inputs: Inputs, ws: seq<World>, acts: seq<Action>, k: nat)
    requires Run(inputs, ws, acts) && k < |ws|
    ensures Inv(inputs, ws[k])
  {
    if k == 0 {
      StartInv(inputs);
    } else {
      InvAlways(inputs, ws, acts, k - 1);
      NextKeepsInv(inputs, ws[k - 1], acts[k - 1]);
    }
  }
}
