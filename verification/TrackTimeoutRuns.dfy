/** What every run of the track timeout stage tells the client. */
module TrackTimeoutRuns {
  import opened Common
  import opened TimeoutHeaps
  import opened TrackTimeouts

  /** What the client was last told about a track. */
  ghost function LastTold(log: seq<Out>, id: string): (o: Option<Out>)
    ensures o.Some? ==> o.value.Told? && o.value.track.id == id
  {
    if log == [] then None
    else
      var last := log[|log| - 1];
      if last.Told? && last.track.id == id then Some(last) else LastTold(log[..|log| - 1], id)
  }

  ghost predicate LastTimedOut(log: seq<Out>, id: string) {
    LastTold(log, id).Some? && LastTold(log, id).value.status == Timeout
  }

  lemma LastToldNext(log: seq<Out>, o: Out, id: string)
    ensures LastTold(log + [o], id) == if o.Told? && o.track.id == id then Some(o) else LastTold(log, id)
  {
    assert (log + [o])[..|log|] == log;
  }

  /** Entries lie under their own identifiers. */
  ghost predicate Owned(m: map<string, Entry>) {
    forall k :: k in m ==> m[k].id == k == m[k].obj.id
  }

  lemma TimeoutsNext(sent: seq<Entry>, n: nat)
    requires n < |sent|
    ensures Timeouts(sent[..n + 1]) == Timeouts(sent[..n]) + [Told(Timeout, sent[n].obj)]
  {
  }

  lemma {:induction false} LastToldOfBatch(log: seq<Out>, sent: seq<Entry>, n: nat, id: string)
    requires n <= |sent| && forall i :: 0 <= i < |sent| ==> sent[i].id == sent[i].obj.id
    ensures var o := LastTold(log + Timeouts(sent[..n]), id);
      if id in Ids(sent[..n]) then o.Some? && o.value.status == Timeout else o == LastTold(log, id)
  {
    if n == 0 {
      assert log + Timeouts(sent[..0]) == log;
    } else {
      LastToldOfBatch(log, sent, n - 1, id);
      TimeoutsNext(sent, n - 1);
      assert log + Timeouts(sent[..n]) == log + Timeouts(sent[..n - 1]) + [Told(Timeout, sent[n - 1].obj)];
      LastToldNext(log + Timeouts(sent[..n - 1]), Told(Timeout, sent[n - 1].obj), id);
      assert sent[..n] == sent[..n - 1] + [sent[n - 1]];
      assert Ids(sent[..n]) == Ids(sent[..n - 1]) + {sent[n - 1].id};
    }
  }

  lemma LastToldAfter(log: seq<Out>, sent: seq<Entry>, id: string)
    requires forall i :: 0 <= i < |sent| ==> sent[i].id == sent[i].obj.id
    ensures var o := LastTold(log + Timeouts(sent), id);
      if id in Ids(sent) then o.Some? && o.value.status == Timeout else o == LastTold(log, id)
  {
    LastToldOfBatch(log, sent, |sent|, id);
    assert sent[..|sent|] == sent;
  }

  // ---------- every current track has an entry ----------

  /** A track last told current has an entry, for that very update. */
  ghost predicate Tracked(s: Stage) {
    && Owned(s.heap)
    && forall k :: LastTold(s.log, k).Some? && LastTold(s.log, k).value.status == Current ==>
                     k in s.heap && s.heap[k].obj == LastTold(s.log, k).value.track
  }

  lemma FiringTracks(s: Stage, clock: nat -> int, sent: seq<Entry>, s': Stage)
    requires Tracked(s) && Fires(s, clock, sent, s')
    ensures Tracked(s')
  {
    forall k | LastTold(s'.log, k).Some? && LastTold(s'.log, k).value.status == Current
      ensures k in s'.heap && s'.heap[k].obj == LastTold(s'.log, k).value.track
    {
      LastToldAfter(s.log, sent, k);
    }
  }

  lemma StepTracks(timeout: int, s: Stage, e: Event, s': Stage)
    requires Tracked(s) && Step(timeout, s, e, s')
    ensures Tracked(s')
  {
    match e
    case Timer(clock) =>
      var sent :| Fires(s, clock, sent, s');
      FiringTracks(s, clock, sent, s');
    case Update(track, status, nows) =>
      forall k: string
        ensures LastTold(s'.log, k) ==
                var o := s'.log[|s.log|]; if o.Told? && o.track.id == k then Some(o) else LastTold(s.log, k)
      {
        LastToldNext(s.log, s'.log[|s.log|], k);
      }
  }

  /** Over every run: a track the client was last told is current has an entry, for that very update. */
  lemma {:induction false} TrackedAlways(timeout: int, events: seq<Event>, trace: seq<Stage>, n: nat)
    requires IsRun(timeout, events, trace) && n <= |events|
    ensures Tracked(trace[n])
  {
    if n > 0 {
      TrackedAlways(timeout, events, trace, n - 1);
      StepTracks(timeout, trace[n - 1], events[n - 1], trace[n]);
    }
  }

  // ---------- no timeout is told twice ----------

  /** No track is told timed out when that is what was last told about it. */
  ghost predicate Once(log: seq<Out>) {
    log == [] ||
    (var init, last := log[..|log| - 1], log[|log| - 1];
     Once(init) && (last.Told? && last.status == Timeout ==> !LastTimedOut(init, last.track.id)))
  }

  lemma OnceNext(log: seq<Out>, o: Out)
    ensures Once(log + [o]) <==> Once(log) && (o.Told? && o.status == Timeout ==> !LastTimedOut(log, o.track.id))
  {
    assert (log + [o])[..|log|] == log;
  }

  ghost predicate NoneTimedOut(log: seq<Out>, sent: seq<Entry>, n: nat)
    requires n <= |sent|
  {
    forall i :: 0 <= i < n ==> !LastTimedOut(log, sent[i].id)
  }

  /** What was last told about an entry of a batch, when its turn comes. */
  lemma ToldInTurn(log: seq<Out>, sent: seq<Entry>, n: nat)
    requires n < |sent| && (forall i :: 0 <= i < |sent| ==> sent[i].id == sent[i].obj.id)
    requires forall i, j :: 0 <= i < j < |sent| ==> sent[i].id != sent[j].id
    ensures LastTold(log + Timeouts(sent[..n]), sent[n].id) == LastTold(log, sent[n].id)
  {
    LastToldOfBatch(log, sent, n, sent[n].id);
    assert forall i :: 0 <= i < n ==> sent[..n][i] == sent[i];
  }

  lemma OnceInTurn(log: seq<Out>, sent: seq<Entry>, n: nat)
    requires n < |sent| && (forall i :: 0 <= i < |sent| ==> sent[i].id == sent[i].obj.id)
    requires forall i, j :: 0 <= i < j < |sent| ==> sent[i].id != sent[j].id
    ensures Once(log + Timeouts(sent[..n + 1])) <==> Once(log + Timeouts(sent[..n])) && !LastTimedOut(log, sent[n].id)
  {
    var before, o := log + Timeouts(sent[..n]), Told(Timeout, sent[n].obj);
    TimeoutsNext(sent, n);
    assert log + Timeouts(sent[..n + 1]) == before + [o];
    OnceNext(before, o);
    ToldInTurn(log, sent, n);
  }

  lemma {:induction false} OnceOfBatch(log: seq<Out>, sent: seq<Entry>, n: nat)
    requires n <= |sent| && (forall i :: 0 <= i < |sent| ==> sent[i].id == sent[i].obj.id)
    requires forall i, j :: 0 <= i < j < |sent| ==> sent[i].id != sent[j].id
    ensures Once(log + Timeouts(sent[..n])) <==> Once(log) && NoneTimedOut(log, sent, n)
  {
    if n == 0 {
      assert log + Timeouts(sent[..0]) == log;
    } else {
      OnceOfBatch(log, sent, n - 1);
      OnceInTurn(log, sent, n - 1);
    }
  }

  /** A timer event keeps this exactly if no entry it pops is of a track last told timed out. */
  lemma FiringIsOnceIff(s: Stage, clock: nat -> int, sent: seq<Entry>, s': Stage)
    requires Owned(s.heap) && Fires(s, clock, sent, s')
    ensures Once(s'.log) <==> Once(s.log) && NoneTimedOut(s.log, sent, |sent|)
  {
    OnceOfBatch(s.log, sent, |sent|);
    assert sent[..|sent|] == sent;
  }

  /** The update tells the client of a timeout, by itself or as it came. */
  ghost predicate TellsTimeout(timeout: int, e: Event) {
    e.Update? && e.track.Some? && Readings(e) && (Refuses(timeout, e.track.value, e.nows) || e.status == Timeout)
  }

  ghost predicate IsRefused(timeout: int, e: Event) {
    e.Update? && e.track.Some? && Readings(e) && Refuses(timeout, e.track.value, e.nows)
  }

  ghost predicate About(e: Event, id: string) {
    e.Update? && e.track.Some? && e.track.value.id == id
  }

  /** Some event is about this track. */
  ghost predicate Mentioned(events: seq<Event>, id: string) {
    exists i :: 0 <= i < |events| && About(events[i], id)
  }

  /** The update tells of a timeout only if it is refused and the first about its track. */
  ghost predicate TellsFirst(timeout: int, events: seq<Event>, i: nat)
    requires i < |events|
  {
    TellsTimeout(timeout, events[i]) ==> IsRefused(timeout, events[i]) && !Mentioned(events[..i], events[i].track.value.id)
  }

  ghost predicate AllTellFirst(timeout: int, events: seq<Event>) {
    forall i :: 0 <= i < |events| ==> TellsFirst(timeout, events, i)
  }

  /** A track last told timed out has no entry, and one not mentioned has none and was not told about. */
  ghost predicate Settled(s: Stage, events: seq<Event>) {
    && Owned(s.heap) && Once(s.log)
    && (forall k :: k in s.heap ==> !LastTimedOut(s.log, k))
    && (forall k :: !Mentioned(events, k) ==> k !in s.heap && LastTold(s.log, k).None?)
  }

  lemma MentionedNext(events: seq<Event>, e: Event, id: string)
    ensures Mentioned(events + [e], id) <==> Mentioned(events, id) || About(e, id)
  {
    var more := events + [e];
    assert forall i :: 0 <= i < |events| ==> more[i] == events[i];
    assert more[|events|] == e;
  }

  lemma FiringSettles(s: Stage, events: seq<Event>, clock: nat -> int, sent: seq<Entry>, s': Stage)
    requires Settled(s, events) && Fires(s, clock, sent, s')
    ensures Settled(s', events + [Timer(clock)])
  {
    FiringIsOnceIff(s, clock, sent, s');
    forall k: string
      ensures if k in Ids(sent) then k !in s'.heap && Mentioned(events, k) else LastTold(s'.log, k) == LastTold(s.log, k)
      ensures Mentioned(events + [Timer(clock)], k) <==> Mentioned(events, k)
    {
      LastToldAfter(s.log, sent, k);
      MentionedNext(events, Timer(clock), k);
    }
  }

  lemma UpdateSettles(timeout: int, s: Stage, events: seq<Event>, e: Event, s': Stage)
    requires Settled(s, events) && e.Update? && Step(timeout, s, e, s')
    requires TellsTimeout(timeout, e) ==> IsRefused(timeout, e) && !Mentioned(events, e.track.value.id)
    ensures Settled(s', events + [e])
  {
    var o := s'.log[|s.log|];
    assert s'.log == s.log + [o];
    OnceNext(s.log, o);
    forall k: string
      ensures LastTold(s'.log, k) == if o.Told? && o.track.id == k then Some(o) else LastTold(s.log, k)
      ensures Mentioned(events + [e], k) <==> Mentioned(events, k) || About(e, k)
    {
      LastToldNext(s.log, o, k);
      MentionedNext(events, e, k);
    }
  }

  lemma {:induction false} SettledAlways(timeout: int, events: seq<Event>, trace: seq<Stage>, n: nat)
    requires IsRun(timeout, events, trace) && n <= |events|
    requires forall i :: 0 <= i < n ==> TellsFirst(timeout, events, i)
    ensures Settled(trace[n], events[..n])
  {
    if n > 0 {
      var e := events[n - 1];
      SettledAlways(timeout, events, trace, n - 1);
      assert TellsFirst(timeout, events, n - 1);
      assert events[..n] == events[..n - 1] + [e];
      if e.Timer? {
        var sent :| Fires(trace[n - 1], e.clock, sent, trace[n]);
        FiringSettles(trace[n - 1], events[..n - 1], e.clock, sent, trace[n]);
      } else {
        UpdateSettles(timeout, trace[n - 1], events[..n - 1], e, trace[n]);
      }
    }
  }

  // ---------- telling twice ----------

  /** Updates with nothing in between. */
  ghost predicate OnlyUpdates(updates: seq<Event>) {
    forall i :: 0 <= i < |updates| ==> updates[i].Update? && Readings(updates[i])
  }

  ghost function Next(timeout: int, s: Stage, e: Event): (s': Stage)
    requires e.Update? && Readings(e)
    ensures Step(timeout, s, e, s')
  {
    match e.track
    case None => s.(log := s.log + [Bare])
    case Some(t) => Taken(timeout, s, t, e.status, e.nows)
  }

  ghost predicate Reaches(timeout: int, events: seq<Event>, s: Stage) {
    exists trace :: IsRun(timeout, events, trace) && trace[|events|] == s
  }

  lemma ReachesNext(timeout: int, events: seq<Event>, s: Stage, e: Event, s': Stage)
    requires Reaches(timeout, events, s) && Step(timeout, s, e, s')
    ensures Reaches(timeout, events + [e], s')
  {
    var trace :| IsRun(timeout, events, trace) && trace[|events|] == s;
    var more := trace + [s'];
    assert IsRun(timeout, events + [e], more) && more[|events| + 1] == s';
  }

  /** Without timer events a track mentioned has an entry or was last told timed out. */
  ghost predicate Answered(s: Stage, events: seq<Event>) {
    Owned(s.heap) && forall k :: Mentioned(events, k) ==> k in s.heap || LastTimedOut(s.log, k)
  }

  lemma {:induction false} AfterUpdates(timeout: int, updates: seq<Event>, n: nat) returns (s: Stage)
    requires OnlyUpdates(updates) && n <= |updates|
    ensures Reaches(timeout, updates[..n], s) && Answered(s, updates[..n])
  {
    if n == 0 {
      s := START;
      assert IsRun(timeout, updates[..0], [START]);
    } else {
      var e := updates[n - 1];
      var before := AfterUpdates(timeout, updates, n - 1);
      assert updates[..n] == updates[..n - 1] + [e];
      s := Next(timeout, before, e);
      ReachesNext(timeout, updates[..n - 1], before, e, s);
      NextAnswers(timeout, before, updates[..n - 1], e);
    }
  }

  lemma NextAnswers(timeout: int, s: Stage, events: seq<Event>, e: Event)
    requires Answered(s, events) && e.Update? && Readings(e)
    ensures Answered(Next(timeout, s, e), events + [e])
  {
    var s' := Next(timeout, s, e);
    var o := s'.log[|s.log|];
    assert s'.log == s.log + [o];
    forall k: string
      ensures LastTold(s'.log, k) == if o.Told? && o.track.id == k then Some(o) else LastTold(s.log, k)
      ensures Mentioned(events + [e], k) <==> Mentioned(events, k) || About(e, k)
    {
      LastToldNext(s.log, o, k);
      MentionedNext(events, e, k);
    }
  }

  // ---------- clocks that do not go back ----------

  /** The clock reads `x` in this event. */
  ghost predicate Reads(e: Event, x: int) {
    if e.Timer? then exists i: nat :: e.clock(i) == x else x in e.nows
  }

  ghost predicate Steady(e: Event) {
    if e.Timer? then forall i: nat, j: nat :: i <= j ==> e.clock(i) <= e.clock(j)
    else forall i, j :: 0 <= i <= j < |e.nows| ==> e.nows[i] <= e.nows[j]
  }

  ghost predicate NotAfter(e: Event, f: Event) {
    forall x, y :: Reads(e, x) && Reads(f, y) ==> x <= y
  }

  /** The clock does not go back, neither within an event nor from one to a later one. */
  ghost predicate Forward(events: seq<Event>) {
    && (forall k :: 0 <= k < |events| ==> Steady(events[k]))
    && (forall j, k :: 0 <= j < k < |events| ==> NotAfter(events[j], events[k]))
  }

  lemma ForwardPrefix(events: seq<Event>, n: nat)
    requires Forward(events) && n <= |events|
    ensures Forward(events[..n])
  {
  }

  lemma {:induction false} LatestOf(nows: seq<int>) returns (t: int)
    ensures forall x :: x in nows ==> x <= t
  {
    t := 0;
    if nows != [] {
      t := LatestOf(nows[1..]);
      t := Max(t, nows[0]);
      assert nows == [nows[0]] + nows[1..];
    }
  }

  lemma {:induction false} LatestReading(events: seq<Event>) returns (t: int)
    requires OnlyUpdates(events)
    ensures forall k, x :: 0 <= k < |events| && Reads(events[k], x) ==> x <= t
  {
    t := 0;
    if events != [] {
      var n := |events| - 1;
      var rest := LatestReading(events[..n]);
      var last := LatestOf(events[n].nows);
      t := Max(rest, last);
      assert forall k :: 0 <= k < n ==> events[k] == events[..n][k];
    }
  }

  /** A timer event may come at any later time. */
  lemma ForwardTimer(events: seq<Event>, now: int, t: int)
    requires Forward(events) && t >= now && forall k, x :: 0 <= k < |events| && Reads(events[k], x) ==> x <= now
    ensures Forward(events + [Timer((_: nat) => t)])
  {
    var e := Timer((_: nat) => t);
    var more := events + [e];
    assert forall x :: Reads(e, x) ==> x == t;
    assert forall k :: 0 <= k < |events| ==> more[k] == events[k];
    assert Steady(e);
    forall j, k | 0 <= j < k < |more| ensures NotAfter(more[j], more[k]) {
      assert k < |events| ==> NotAfter(events[j], events[k]);
    }
  }

  lemma {:induction false} LeastOf(m: map<string, Entry>) returns (e: Entry)
    requires m != map[] && Owned(m)
    ensures IsLeast(e, m)
    decreases |m|
  {
    var k :| k in m;
    e := m[k];
    var rest := m - {k};
    if rest != map[] {
      var f := LeastOf(rest);
      if f.deadline < e.deadline {
        e := f;
      }
    }
    assert forall j :: j in m ==> j == k || j in rest;
  }

  lemma {:induction false} BoundOf(m: map<string, Entry>) returns (t: int)
    ensures forall k :: k in m ==> m[k].deadline < t
    decreases |m|
  {
    t := 0;
    if m != map[] {
      var k :| k in m;
      t := BoundOf(m - {k});
      t := Max(t, m[k].deadline + 1);
      assert forall j :: j in m ==> j == k || j in m - {k};
    }
  }

  lemma {:induction false} DrainedOn(m: map<string, Entry>, sent: seq<Entry>, rest: map<string, Entry>) returns (all: seq<Entry>)
    requires Drained(m, sent, rest) && Owned(rest)
    ensures Drained(m, all, map[])
    decreases |rest|
  {
    all := sent;
    if rest != map[] {
      var e := LeastOf(rest);
      DrainOne(m, sent, rest, e);
      all := DrainedOn(m, sent + [e], rest - {e.id});
    }
  }

  /** A timer event late enough pops everything. */
  lemma FiresAll(s: Stage, from: int) returns (t: int, sent: seq<Entry>, s': Stage)
    requires Owned(s.heap)
    ensures t >= from && Fires(s, (_: nat) => t, sent, s') && forall k :: k in s.heap ==> k in Ids(sent)
  {
    t := BoundOf(s.heap);
    t := Max(t, from);
    assert Ids<string, Track>([]) == {};
    sent := DrainedOn(s.heap, [], s.heap);
    s' := Stage(map[], s.log + Timeouts(sent));
    assert forall k :: k in s.heap && k !in Ids(sent) ==> k in s'.heap;
  }

  /** An entry of a track last told timed out is told again. */
  lemma PendingIsToldAgain(timeout: int, events: seq<Event>, s: Stage, k: string) returns (e: Event, s': Stage)
    requires Reaches(timeout, events, s) && Owned(s.heap) && k in s.heap && LastTimedOut(s.log, k)
    requires OnlyUpdates(events) && Forward(events)
    ensures e.Timer? && Reaches(timeout, events + [e], s') && Forward(events + [e]) && !Once(s'.log)
  {
    var now := LatestReading(events);
    var t, sent, s1 := FiresAll(s, now);
    ForwardTimer(events, now, t);
    e, s' := Timer((_: nat) => t), s1;
    FiringIsOnceIff(s, e.clock, sent, s');
    var i :| 0 <= i < |sent| && sent[i].id == k;
    ReachesNext(timeout, events, s, e, s');
  }

  /** A run with some of these updates, in their order, and perhaps a timer event at the end, that tells a timeout twice. */
  lemma ToldTwice(timeout: int, updates: seq<Event>, i: nat) returns (events: seq<Event>, s: Stage)
    requires OnlyUpdates(updates) && Forward(updates) && i < |updates| && !TellsFirst(timeout, updates, i)
    ensures Forward(events)
    ensures events == updates[..i + 1] || (|events| == i + 2 && events[..i + 1] == updates[..i + 1] && events[i + 1].Timer?)
    ensures Reaches(timeout, events, s) && !Once(s.log)
  {
    var e, k := updates[i], updates[i].track.value.id;
    var before := AfterUpdates(timeout, updates, i);
    events, s := updates[..i + 1], Next(timeout, before, e);
    assert events == updates[..i] + [e];
    ForwardPrefix(updates, i + 1);
    ReachesNext(timeout, updates[..i], before, e, s);
    NextAnswers(timeout, before, updates[..i], e);
    LastToldNext(before.log, s.log[|before.log|], k);
    OnceNext(before.log, s.log[|before.log|]);
    if k in s.heap {
      var timer, later := PendingIsToldAgain(timeout, events, s, k);
      events, s := events + [timer], later;
    }
  }

  /** The updates of a run. */
  function UpdatesIn(events: seq<Event>): (updates: seq<Event>) {
    if events == [] then []
    else UpdatesIn(events[..|events| - 1]) + if events[|events| - 1].Update? then [events[|events| - 1]] else []
  }

  lemma {:induction false} UpdatesOfUpdates(updates: seq<Event>)
    requires OnlyUpdates(updates)
    ensures UpdatesIn(updates) == updates
  {
    if updates != [] {
      UpdatesOfUpdates(updates[..|updates| - 1]);
    }
  }

  lemma {:induction false} SameMentioned(events: seq<Event>, id: string)
    ensures Mentioned(UpdatesIn(events), id) <==> Mentioned(events, id)
  {
    if events != [] {
      var init, e := events[..|events| - 1], events[|events| - 1];
      SameMentioned(init, id);
      MentionedNext(init, e, id);
      assert events == init + [e];
      if e.Update? {
        MentionedNext(UpdatesIn(init), e, id);
      } else {
        assert UpdatesIn(events) == UpdatesIn(init);
      }
    }
  }

  lemma {:induction false} UpdatesPrefix(events: seq<Event>, n: nat)
    requires n <= |events|
    ensures UpdatesIn(events[..n]) <= UpdatesIn(events)
  {
    if n < |events| {
      var init := events[..|events| - 1];
      UpdatesPrefix(init, n);
      assert init[..n] == events[..n];
    } else {
      assert events[..n] == events;
    }
  }

  lemma UpdateAt(events: seq<Event>, i: nat)
    requires i < |events| && events[i].Update?
    ensures UpdatesIn(events[..i]) + [events[i]] <= UpdatesIn(events)
  {
    assert events[..i + 1][..i] == events[..i];
    UpdatesPrefix(events, i + 1);
  }

  lemma TellsFirstToo(timeout: int, a: seq<Event>, i: nat, b: seq<Event>, j: nat)
    requires i < |a| && j < |b| && a[i] == b[j] && TellsFirst(timeout, a, i)
    requires forall k :: Mentioned(b[..j], k) ==> Mentioned(a[..i], k)
    ensures TellsFirst(timeout, b, j)
  {
  }

  /** A run with these updates, or the first of them, tells first where they do. */
  lemma RunTellsFirst(timeout: int, updates: seq<Event>, events: seq<Event>, i: nat)
    requires AllTellFirst(timeout, updates) && UpdatesIn(events) <= updates && i < |events|
    ensures TellsFirst(timeout, events, i)
  {
    if events[i].Update? {
      var j := |UpdatesIn(events[..i])|;
      UpdateAt(events, i);
      assert updates[j] == events[i] && updates[..j] == UpdatesIn(events[..i]);
      forall k ensures Mentioned(events[..i], k) ==> Mentioned(updates[..j], k) {
        SameMentioned(events[..i], k);
      }
      TellsFirstToo(timeout, updates, j, events, i);
    }
  }

  /** In every run with these updates in which the clock does not go back, no timeout is told twice. */
  ghost predicate NeverTwice(timeout: int, updates: seq<Event>) {
    forall events, s :: Reaches(timeout, events, s) && Forward(events) && UpdatesIn(events) <= updates ==> Once(s.log)
  }

  /**
   No timeout is told twice, in any run with these updates or the first of them
   in which the clock does not go back, exactly if updates tell of a timeout only
   when they are refused and the first about their track.
   */
  lemma NeverTwiceIff(timeout: int, updates: seq<Event>)
    requires OnlyUpdates(updates) && Forward(updates)
    ensures NeverTwice(timeout, updates) <==> AllTellFirst(timeout, updates)
  {
    if AllTellFirst(timeout, updates) {
      forall events, s | Reaches(timeout, events, s) && Forward(events) && UpdatesIn(events) <= updates ensures Once(s.log) {
        OnceInRun(timeout, updates, events, s);
      }
    } else {
      var i :| 0 <= i < |updates| && !TellsFirst(timeout, updates, i);
      var events, s := ToldTwice(timeout, updates, i);
      assert updates[..i + 1] <= updates;
      UpdatesOfUpdates(updates[..i + 1]);
      if |events| == i + 2 {
        assert events[..|events| - 1] == updates[..i + 1];
      }
      assert UpdatesIn(events) == updates[..i + 1];
    }
  }

  lemma OnceInRun(timeout: int, updates: seq<Event>, events: seq<Event>, s: Stage)
    requires AllTellFirst(timeout, updates) && Reaches(timeout, events, s) && UpdatesIn(events) <= updates
    ensures Once(s.log)
  {
    var trace :| IsRun(timeout, events, trace) && trace[|events|] == s;
    forall i | 0 <= i < |events| ensures TellsFirst(timeout, events, i) {
      RunTellsFirst(timeout, updates, events, i);
    }
    SettledAlways(timeout, events, trace, |events|);
  }

  /** For example a fresh track that is then reported lost: its entry stays, and times out once more. */
  lemma LostIsToldTwice() returns (updates: seq<Event>)
    ensures OnlyUpdates(updates) && Forward(updates) && !AllTellFirst(10, updates) && !NeverTwice(10, updates)
  {
    var seen, lost := Track("a", [Some(Target(false, false, Some(0), 0, false))]), Track("a", [Some(Target(false, true, Some(1), 1, false))]);
    updates := [Update(Some(seen), Current, [0, 0]), Update(Some(lost), Current, [1, 1])];
    assert About(updates[..1][0], "a");
    assert lost.targets[0].Some? && ForcesTimeout(lost.targets[0].value, 10, 1);
    assert IsRefused(10, updates[1]);
    assert !TellsFirst(10, updates, 1);
    assert forall x :: (Reads(updates[0], x) ==> x == 0) && (Reads(updates[1], x) ==> x == 1);
    assert NotAfter(updates[0], updates[1]);
    NeverTwiceIff(10, updates);
  }
}
