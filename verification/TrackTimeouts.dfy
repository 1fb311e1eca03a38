/**
 The track timeout stage: every accepted track update sets the deadline of its
 track in a timeout heap, and tracks whose deadline passed are announced.

 Times are integers (nanoseconds).  The clock is explicit: a call that reads
 it several times is given one value for each reading.
 */
module TrackTimeouts {
  import opened Common
  import opened TimeoutHeaps

  /**
   What the stage looks at in a target.  `manualTimeout` is a manual target
   that asks for its timeout and `lost` a tracked-target message with status
   "L"; a target without update time carries None.
   */
  datatype Target = Target(manualTimeout: bool, lost: bool, updateTime: Option<int>, time: int, repeats: bool)

  datatype Track = Track(id: string, targets: seq<Option<Target>>)

  datatype Status = Unknown | Current | Timeout

  /** This target alone times its track out, when the clock reads `now`. */
  predicate ForcesTimeout(t: Target, timeout: int, now: int) {
    || t.manualTimeout
    || t.lost
    || (t.updateTime.Some? && !t.repeats && t.updateTime.value != t.time && t.time + timeout < now)
  }

  ghost predicate AnyForcesTimeout(ts: seq<Option<Target>>, timeout: int, nows: seq<int>)
    requires |ts| <= |nows|
  {
    exists i :: 0 <= i < |ts| && ts[i].Some? && ForcesTimeout(ts[i].value, timeout, nows[i])
  }

  /** The deadline this target would give on its own, if it gives one. */
  function OwnDeadline(t: Option<Target>, timeout: int): (d: Option<int>) {
    if t.None? || t.value.updateTime.None? then None
    else
      var u := t.value.updateTime.value;
      if t.value.repeats || u == t.value.time then Some(u + timeout)
      else if u > t.value.time then Some(t.value.time + timeout)
      else None
  }

  /** The value the code compares with the running deadline: always by update time. */
  function Reach(t: Option<Target>, timeout: int): (d: int)
    requires OwnDeadline(t, timeout).Some?
    ensures d >= OwnDeadline(t, timeout).value
  {
    t.value.updateTime.value + timeout
  }

  /** One turn of the loop over the targets. */
  function NextDeadline(deadline: int, t: Option<Target>, timeout: int): (d: int) {
    if OwnDeadline(t, timeout).Some? && Reach(t, timeout) > deadline then OwnDeadline(t, timeout).value else deadline
  }

  /** The deadline after all targets, starting from the epoch. */
  function Deadline(ts: seq<Option<Target>>, timeout: int): (d: int) {
    if ts == [] then 0
    else NextDeadline(Deadline(ts[..|ts| - 1], timeout), ts[|ts| - 1], timeout)
  }

  /** "The timeout deadline furthest in the future": the greatest over the targets, at least the epoch. */
  function Furthest(ts: seq<Option<Target>>, timeout: int): (d: int) {
    if ts == [] then 0
    else
      var d := Furthest(ts[..|ts| - 1], timeout);
      var own := OwnDeadline(ts[|ts| - 1], timeout);
      if own.Some? then Max(d, own.value) else d
  }

  predicate Attains(t: Option<Target>, timeout: int, d: int) {
    OwnDeadline(t, timeout) == Some(d)
  }

  /** A target that reaches past `d` by its update time, with no target attaining `d` from it on. */
  ghost predicate Lowers(ts: seq<Option<Target>>, timeout: int, d: int, k: nat) {
    && k < |ts|
    && OwnDeadline(ts[k], timeout).Some? && Reach(ts[k], timeout) > d
    && forall l :: k <= l < |ts| ==> !Attains(ts[l], timeout, d)
  }

  lemma {:induction false} FurthestIsGreatest(ts: seq<Option<Target>>, timeout: int)
    ensures Furthest(ts, timeout) >= 0
    ensures forall i :: 0 <= i < |ts| && OwnDeadline(ts[i], timeout).Some? ==>
                          OwnDeadline(ts[i], timeout).value <= Furthest(ts, timeout)
    ensures Furthest(ts, timeout) == 0 || exists i :: 0 <= i < |ts| && Attains(ts[i], timeout, Furthest(ts, timeout))
  {
    if ts != [] {
      var init := ts[..|ts| - 1];
      FurthestIsGreatest(init, timeout);
      var d := Furthest(init, timeout);
      assert Furthest(ts, timeout) == d || Attains(ts[|ts| - 1], timeout, Furthest(ts, timeout));
      if d != 0 {
        var i :| 0 <= i < |init| && Attains(init[i], timeout, d);
        assert Attains(ts[i], timeout, d);
      }
    }
  }

  /**
   Against any bound on the own deadlines: the loop ends exactly at the bound
   when the bound is attained (or is the epoch) and nothing lowers it later.
   */
  lemma {:induction false} DeadlineMeetsBound(ts: seq<Option<Target>>, timeout: int, d: int)
    requires d >= 0
    requires forall i :: 0 <= i < |ts| && OwnDeadline(ts[i], timeout).Some? ==> OwnDeadline(ts[i], timeout).value <= d
    ensures Deadline(ts, timeout) <= d
    ensures Deadline(ts, timeout) == d <==>
            && (d == 0 || exists l :: 0 <= l < |ts| && Attains(ts[l], timeout, d))
            && !exists k :: Lowers(ts, timeout, d, k)
  {
    if ts != [] {
      var n := |ts| - 1;
      var init := ts[..n];
      DeadlineMeetsBound(init, timeout, d);
      if Attains(ts[n], timeout, d) {
        assert Deadline(ts, timeout) == d;
      } else if OwnDeadline(ts[n], timeout).Some? && Reach(ts[n], timeout) > d {
        assert Lowers(ts, timeout, d, n);
      } else {
        assert forall k :: Lowers(init, timeout, d, k) ==> Lowers(ts, timeout, d, k);
        assert forall k :: Lowers(ts, timeout, d, k) ==> Lowers(init, timeout, d, k);
        assert forall l :: 0 <= l < n && Attains(init[l], timeout, d) ==> Attains(ts[l], timeout, d);
        assert forall l :: 0 <= l < |ts| && Attains(ts[l], timeout, d) ==> l < n && Attains(init[l], timeout, d);
      }
    }
  }

  /**
   The loop is meant to find the furthest deadline.  It does exactly when no
   target after the last one attaining it reaches past it by update time.
   */
  lemma DeadlineIsFurthestIff(ts: seq<Option<Target>>, timeout: int)
    ensures Deadline(ts, timeout) <= Furthest(ts, timeout)
    ensures Deadline(ts, timeout) == Furthest(ts, timeout) <==>
            !exists k :: Lowers(ts, timeout, Furthest(ts, timeout), k)
  {
    FurthestIsGreatest(ts, timeout);
    DeadlineMeetsBound(ts, timeout, Furthest(ts, timeout));
  }

  /** A late report of an old fix lowers the deadline a fresh fix had set. */
  lemma DeadlineCanBeLowered(timeout: int)
    requires timeout > 0
    ensures exists ts :: Deadline(ts, timeout) < Furthest(ts, timeout)
  {
    var prompt := Some(Target(false, false, Some(100), 100, false));
    var late := Some(Target(false, false, Some(110), 50, false));
    assert [prompt, late][..1] == [prompt] && [prompt][..0] == [];
    assert Deadline([prompt], timeout) == 100 + timeout;
    assert Furthest([prompt], timeout) == 100 + timeout;
    assert Deadline([prompt, late], timeout) < Furthest([prompt, late], timeout);
  }

  type Entry = Info<string, Track>

  ghost predicate DueInTurn(sent: seq<Entry>, now: nat -> int) {
    forall i :: 0 <= i < |sent| ==> sent[i].deadline < now(i)
  }

  /** The entries sent were due one by one as the clock was read, and what is left was not at the last reading. */
  ghost predicate TimedOut(before: map<string, Entry>, sent: seq<Entry>, rest: map<string, Entry>, now: nat -> int) {
    && Drained(before, sent, rest)
    && DueInTurn(sent, now)
    && (forall k :: k in rest ==> rest[k].deadline >= now(|sent|))
  }

  /**
   With a clock that does not run backwards: everything due at the first
   reading is sent, nothing is sent that is not due at the last one, and what
   is left is not due at the last one.
   */
  lemma TimedOutIsExact(before: map<string, Entry>, sent: seq<Entry>, rest: map<string, Entry>, now: nat -> int, last: nat)
    requires TimedOut(before, sent, rest, now)
    requires forall i: nat, j: nat :: i <= j ==> now(i) <= now(j)
    requires last == if rest == map[] && sent != [] then |sent| - 1 else |sent|
    ensures forall k :: k in before && before[k].deadline < now(0) ==> k in Ids(sent)
    ensures forall k :: k in Ids(sent) ==> k in before && before[k].deadline < now(last)
    ensures forall k :: k in rest <==> k in before && k !in Ids(sent)
    ensures forall k :: k in rest ==> rest[k] == before[k] && rest[k].deadline >= now(last)
  {
    assert now(0) <= now(|sent|);
    assert forall k :: k in rest ==> before[k].deadline >= now(|sent|);
    forall k | k in Ids(sent) ensures k in before && before[k].deadline < now(last) {
      var i :| 0 <= i < |sent| && sent[i].id == k;
      assert now(i) <= now(last);
    }
  }

  // ---------- the stage as a state machine ----------

  /** What leaves the stage: an update without a track as it came, or a track with a status. */
  datatype Out = Bare | Told(status: Status, track: Track)

  /** What the loop reacts to; the clock readings of a reaction come with it.  A status other than these is unknown. */
  datatype Event = Timer(clock: nat -> int) | Update(track: Option<Track>, status: Status, nows: seq<int>)

  predicate Readings(e: Event) {
    e.Update? && e.track.Some? ==> |e.nows| == |e.track.value.targets| + 1
  }

  /** The deadlines kept, and what was sent so far. */
  datatype Stage = Stage(heap: map<string, Entry>, log: seq<Out>)

  const START: Stage := Stage(map[], [])

  /** The track is timed out on arrival. */
  ghost predicate Refuses(timeout: int, t: Track, nows: seq<int>)
    requires |nows| == |t.targets| + 1
  {
    AnyForcesTimeout(t.targets, timeout, nows) || Deadline(t.targets, timeout) < nows[|t.targets|]
  }

  /**
   What a single target means for its track.  A manual timeout or a lost
   target times it out at once.  Otherwise a repeated report keeps it for
   the timeout after its update, any other for the timeout after the report
   itself, however late that came in; and one updated before it was made does
   not keep it at all, after the epoch.
   */
  lemma OneTargetLasts(id: string, t: Target, timeout: int, now: int)
    requires t.updateTime.Some?
    ensures var u, refused := t.updateTime.value, Refuses(timeout, Track(id, [Some(t)]), [now, now]);
      if t.manualTimeout || t.lost then refused
      else if t.repeats || u == t.time then refused <==> now > Max(0, u + timeout)
      else if u > t.time then refused <==> now > t.time + timeout
      else now > 0 ==> refused
  {
    var ts, nows := [Some(t)], [now, now];
    assert ts[..0] == [] && Deadline(ts[..0], timeout) == 0;
    assert AnyForcesTimeout(ts, timeout, nows) <==> ForcesTimeout(t, timeout, now) by {
      if ForcesTimeout(t, timeout, now) {
        assert ts[0].Some? && ForcesTimeout(ts[0].value, timeout, nows[0]);
      }
    }
  }

  function Timeouts(sent: seq<Entry>): (outs: seq<Out>)
    ensures |outs| == |sent| && forall i :: 0 <= i < |sent| ==> outs[i] == Told(Timeout, sent[i].obj)
  {
    seq(|sent|, i requires 0 <= i < |sent| => Told(Timeout, sent[i].obj))
  }

  ghost predicate Fires(s: Stage, clock: nat -> int, sent: seq<Entry>, s': Stage) {
    TimedOut(s.heap, sent, s'.heap, clock) && s'.log == s.log + Timeouts(sent)
  }

  /** One round of the loop. */
  ghost predicate Step(timeout: int, s: Stage, e: Event, s': Stage) {
    && Readings(e)
    && match e
       case Timer(clock) => exists sent :: Fires(s, clock, sent, s')
       case Update(None, _, _) => s' == s.(log := s.log + [Bare])
       case Update(Some(t), status, nows) => s' == Taken(timeout, s, t, status, nows)
  }

  /** A timed out track is announced, and its entry, if it has one, stays; any other gets an entry and is passed on. */
  ghost function Taken(timeout: int, s: Stage, t: Track, status: Status, nows: seq<int>): (s': Stage)
    requires |nows| == |t.targets| + 1
  {
    if Refuses(timeout, t, nows) then s.(log := s.log + [Told(Timeout, t)])
    else Stage(s.heap[t.id := Info(t.id, Deadline(t.targets, timeout), t)], s.log + [Told(status, t)])
  }

  ghost predicate IsRun(timeout: int, events: seq<Event>, trace: seq<Stage>) {
    && |trace| == |events| + 1 && trace[0] == START
    && forall i :: 0 <= i < |events| ==> Step(timeout, trace[i], events[i], trace[i + 1])
  }

  class StaticTimeout {
    const timeout: int
    const timeoutHeap: TimeoutHeap<string, Track>

    constructor (timeout: int)
      ensures this.timeout == timeout && fresh(timeoutHeap)
      ensures timeoutHeap.Valid() && timeoutHeap.contents == map[]
    {
      this.timeout := timeout;
      timeoutHeap := new TimeoutHeap<string, Track>();
    }

    /** How long to wait: up to the earliest deadline and no longer, five seconds when there is none. */
    method NextTimeoutIn(now: int) returns (wait: int)
      requires timeoutHeap.Valid()
      ensures wait >= 0
      ensures timeoutHeap.contents == map[] ==> wait == 5 * SECOND
      ensures timeoutHeap.contents != map[] ==>
                && (forall k :: k in timeoutHeap.contents ==> now + wait <= Max(now, timeoutHeap.contents[k].deadline))
                && exists k :: k in timeoutHeap.contents && now + wait == Max(now, timeoutHeap.contents[k].deadline)
    {
      var next := timeoutHeap.Peek();
      if next.None? {
        return 5 * SECOND;
      }
      assert next.value.id in timeoutHeap.contents;
      if next.value.deadline < now {
        return 0;
      }
      return next.value.deadline - now;
    }

    /**
     Announce everything that is due.  `now(i)` is the clock at its reading
     number i, taken before each announcement and once more if entries remain.
     */
    method SendTimeouts(now: nat -> int) returns (sent: seq<Entry>)
      requires timeoutHeap.Valid()
      modifies timeoutHeap
      ensures timeoutHeap.Valid()
      ensures TimedOut(old(timeoutHeap.contents), sent, timeoutHeap.contents, now)
    {
      ghost var before := timeoutHeap.contents;
      sent := [];
      var next := timeoutHeap.Peek();
      while next.Some? && next.value.deadline < now(|sent|)
        invariant timeoutHeap.Valid()
        invariant if next.None? then timeoutHeap.heap == [] else |timeoutHeap.heap| > 0 && timeoutHeap.heap[0] == next.value
        invariant next.Some? ==> IsLeast(next.value, timeoutHeap.contents)
        invariant Drained(before, sent, timeoutHeap.contents)
        invariant DueInTurn(sent, now)
        decreases |timeoutHeap.heap|
      {
        DrainOne(before, sent, timeoutHeap.contents, next.value);
        var _ := timeoutHeap.HeapPop();
        sent := sent + [next.value];
        next := timeoutHeap.Peek();
      }
    }

    /**
     Take in a track.  `nows[i]` is the clock when target i is looked at, the
     last element the clock after the loop.
     */
    method UpdateDeadlines(track: Option<Track>, nows: seq<int>) returns (status: Status)
      requires timeoutHeap.Valid()
      requires track.Some? ==> |nows| == |track.value.targets| + 1
      modifies timeoutHeap
      ensures timeoutHeap.Valid()
      ensures track.None? <==> status == Unknown
      ensures track.Some? ==> (
                status == Timeout <==>
                || AnyForcesTimeout(track.value.targets, timeout, nows)
                || Deadline(track.value.targets, timeout) < nows[|track.value.targets|])
      ensures timeoutHeap.contents ==
              if status == Current
              then old(timeoutHeap.contents)[track.value.id := Info(track.value.id, Deadline(track.value.targets, timeout), track.value)]
              else old(timeoutHeap.contents)
    {
      if track.None? {
        return Unknown;
      }
      var targets := track.value.targets;
      var deadline := 0;
      for i := 0 to |targets|
        invariant deadline == Deadline(targets[..i], timeout)
        invariant forall j :: 0 <= j < i && targets[j].Some? ==> !ForcesTimeout(targets[j].value, timeout, nows[j])
        invariant timeoutHeap.Valid() && timeoutHeap.contents == old(timeoutHeap.contents)
      {
        assert targets[..i + 1][..i] == targets[..i];
        if targets[i].None? {
          continue;
        }
        var target := targets[i].value;
        if target.manualTimeout {
          return Timeout;
        }
        if target.lost {
          return Timeout;
        }
        if target.updateTime.Some? {
          var tutu := target.updateTime.value;
          var ttu := target.time;
          if !target.repeats && tutu != ttu && ttu + timeout < nows[i] {
            return Timeout;
          }
          var tm := tutu + timeout;
          if tm > deadline {
            if target.repeats || (!target.repeats && tutu == ttu) {
              deadline := tm;
            } else if !target.repeats && tutu > ttu {
              deadline := tm - (tutu - ttu);
            }
          }
        }
      }
      assert targets[..|targets|] == targets;
      if deadline < nows[|targets|] {
        return Timeout;
      }
      var _ := timeoutHeap.Upsert(Info(track.value.id, deadline, track.value));
      return Current;
    }

    /** A whole run of the stage, from its start. */
    method Handle(events: seq<Event>) returns (log: seq<Out>, ghost trace: seq<Stage>)
      requires timeoutHeap.Valid() && timeoutHeap.contents == map[]
      requires forall i :: 0 <= i < |events| ==> Readings(events[i])
      modifies timeoutHeap
      ensures timeoutHeap.Valid() && IsRun(timeout, events, trace) && trace[|events|] == Stage(timeoutHeap.contents, log)
    {
      log, trace := [], [START];
      for i := 0 to |events|
        invariant timeoutHeap.Valid() && |trace| == i + 1 && trace[0] == START
        invariant forall k :: 0 <= k < i ==> Step(timeout, trace[k], events[k], trace[k + 1])
        invariant trace[i] == Stage(timeoutHeap.contents, log)
      {
        match events[i] {
          case Timer(clock) =>
            var sent := SendTimeouts(clock);
            log := log + Timeouts(sent);
            assert Fires(trace[i], clock, sent, Stage(timeoutHeap.contents, log));
          case Update(None, _, _) =>
            log := log + [Bare];
          case Update(Some(t), status, nows) =>
            var found := UpdateDeadlines(Some(t), nows);
            if found == Timeout {
              log := log + [Told(Timeout, t)];
            } else {
              log := log + [Told(status, t)];
            }
        }
        ghost var next := Stage(timeoutHeap.contents, log);
        assert Step(timeout, trace[i], events[i], next);
        trace := trace + [next];
      }
    }
  }
}
