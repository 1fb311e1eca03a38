/**
 The timeout stage of the miscellaneous data stream.  Objects carry a creation
 and an expiration time; one heap holds objects that are not created yet, the
 other the expirations.  Times are integers and every clock reading is an input.
 */
module MiscTimeouts {
  import opened Common
  import opened TimeoutHeaps

  datatype Object = Object(id: string, creation: int, expiration: int, data: string)

  datatype Status = Current | Timeout | OtherStatus

  /**
   What leaves the stage, with the clock when it was sent: a response without
   contents as it came, an object with the status it came with, or an object
   with the status the stage gives it.
   */
  datatype Response = Passed | Relayed(status: Status, obj: Object, at: int) | Sent(status: Status, obj: Object, at: int)

  /** What the stage reacts to: its timer, or a response from upstream; with the clock at that moment. */
  datatype Event = Timer(now: int) | Data(contents: Option<Object>, status: Status, now: int)

  type Entry = Info<string, Object>

  /** The objects received in a run. */
  ghost function Received(events: seq<Event>): (objs: set<Object>) {
    set e <- events | e.Data? && e.contents.Some? :: e.contents.value
  }

  function Responses(status: Status, entries: seq<Entry>, at: int): (rs: seq<Response>)
    ensures |rs| == |entries|
    ensures forall i :: 0 <= i < |rs| ==> rs[i] == Sent(status, entries[i].obj, at)
  {
    seq(|entries|, i requires 0 <= i < |entries| => Sent(status, entries[i].obj, at))
  }

  /** The heap of creations holds received objects under their identifiers, due at their creation. */
  ghost predicate Creations(m: map<string, Entry>, objs: set<Object>) {
    forall k :: k in m ==> m[k].obj in objs && m[k].id == k == m[k].obj.id && m[k].deadline == m[k].obj.creation
  }

  ghost predicate Expirations(m: map<string, Entry>, objs: set<Object>) {
    forall k :: k in m ==> m[k].obj in objs && m[k].id == k == m[k].obj.id && m[k].deadline == m[k].obj.expiration
  }

  /**
   Nothing about a version was sent before its creation, no version was relayed
   at or after its expiration, and none was timed out at or before it.
   */
  ghost predicate Punctual(log: seq<Response>, objs: set<Object>) {
    forall i :: 0 <= i < |log| && !log[i].Passed? ==> log[i].obj in objs && OnTime(log[i])
  }

  predicate OnTime(r: Response)
    requires !r.Passed?
  {
    if r.Relayed? then r.obj.creation <= r.at < r.obj.expiration
    else if r.status == Current then r.obj.creation <= r.at
    else r.status == Timeout && r.obj.expiration < r.at
  }

  /** The last status sent for an identifier. */
  ghost function LastStatus(log: seq<Response>, id: string): (s: Option<Status>) {
    if log == [] then None
    else
      var last := log[|log| - 1];
      if !last.Passed? && last.obj.id == id then Some(last.status) else LastStatus(log[..|log| - 1], id)
  }

  /** Whatever the client was last told is current has an expiration pending. */
  ghost predicate ClientCovered(outs: map<string, Entry>, log: seq<Response>) {
    forall k :: LastStatus(log, k) == Some(Current) ==> k in outs
  }

  /** So has that, and also whatever is about to be created. */
  ghost predicate Covered(ins: map<string, Entry>, outs: map<string, Entry>, log: seq<Response>) {
    (forall k :: k in ins ==> k in outs) && ClientCovered(outs, log)
  }

  /** No version of an identifier expires before a version of the same identifier is created. */
  ghost predicate Patient(objs: set<Object>) {
    forall v, w :: v in objs && w in objs && v.id == w.id ==> w.creation <= v.expiration
  }

  /** What a timer event does to the two heaps; right after it neither holds a due entry. */
  ghost predicate TimerStep(ins: map<string, Entry>, outs: map<string, Entry>, now: int,
                            created: seq<Entry>, expired: seq<Entry>, ins': map<string, Entry>, outs': map<string, Entry>)
  {
    && Drained(ins, created, ins') && Drained(outs, expired, outs')
    && (forall e :: e in created ==> e.deadline <= now)
    && (forall e :: e in expired ==> e.deadline < now)
    && (forall k :: k in ins' ==> ins'[k].deadline > now)
    && (forall k :: k in outs' ==> outs'[k].deadline >= now)
  }

  /** What taking in an object does to the creations. */
  function InsAfter(ins: map<string, Entry>, obj: Object, now: int): (r: map<string, Entry>) {
    if obj.creation > now then ins[obj.id := Info(obj.id, obj.creation, obj)] else ins
  }

  /** What taking in an object does to the expirations. */
  function OutsAfter(outs: map<string, Entry>, obj: Object, now: int): (r: map<string, Entry>) {
    if obj.creation > now || obj.expiration > now || obj.id in outs
    then outs[obj.id := Info(obj.id, obj.expiration, obj)] else outs
  }

  lemma LastStatusNext(log: seq<Response>, r: Response, id: string)
    ensures LastStatus(log + [r], id) == if !r.Passed? && r.obj.id == id then Some(r.status) else LastStatus(log, id)
  {
    assert (log + [r])[..|log|] == log;
  }

  lemma {:induction false} LastStatusOfBatch(log: seq<Response>, status: Status, batch: seq<Entry>, at: int, id: string)
    requires forall i :: 0 <= i < |batch| ==> batch[i].id == batch[i].obj.id
    ensures LastStatus(log + Responses(status, batch, at), id) ==
            if id in Ids(batch) then Some(status) else LastStatus(log, id)
  {
    if batch == [] {
      assert log + Responses(status, batch, at) == log;
    } else {
      var init, last := batch[..|batch| - 1], batch[|batch| - 1];
      LastStatusOfBatch(log, status, init, at, id);
      assert log + Responses(status, batch, at) == log + Responses(status, init, at) + [Sent(status, last.obj, at)];
      LastStatusNext(log + Responses(status, init, at), Sent(status, last.obj, at), id);
      assert id in Ids(batch) <==> id in Ids(init) || id == last.id by {
        assert batch == init + [last];
      }
    }
  }

  /** No expiration falls due before the creation it belongs to, or one that is to come. */
  ghost predicate Unhurried(ins: map<string, Entry>, outs: map<string, Entry>, now: int) {
    forall k :: k in ins && ins[k].deadline > now ==> k in outs && outs[k].deadline >= now
  }

  /** A timer event keeps the log punctual. */
  lemma AfterTimer(ins: map<string, Entry>, outs: map<string, Entry>, log: seq<Response>, objs: set<Object>, now: int,
                   created: seq<Entry>, ins': map<string, Entry>, expired: seq<Entry>, outs': map<string, Entry>)
    requires Creations(ins, objs) && Expirations(outs, objs) && Punctual(log, objs)
    requires TimerStep(ins, outs, now, created, expired, ins', outs')
    ensures Creations(ins', objs) && Expirations(outs', objs)
    ensures Punctual(log + Responses(Current, created, now) + Responses(Timeout, expired, now), objs)
  {
  }

  /** What stays after a drain up to a bound. */
  lemma StaysIff(m: map<string, Entry>, sent: seq<Entry>, rest: map<string, Entry>, bound: int, k: string)
    requires Drained(m, sent, rest)
    requires (forall e :: e in sent ==> e.deadline < bound) && (forall j :: j in rest ==> rest[j].deadline >= bound)
    ensures k in rest <==> k in m && m[k].deadline >= bound
  {
    assert k in Ids(sent) ==> exists i :: 0 <= i < |sent| && sent[i].id == k;
  }

  /** What the client was last told after a timer event. */
  lemma LastTold(log: seq<Response>, now: int, created: seq<Entry>, expired: seq<Entry>, k: string)
    requires forall i :: 0 <= i < |created| ==> created[i].id == created[i].obj.id
    requires forall i :: 0 <= i < |expired| ==> expired[i].id == expired[i].obj.id
    ensures LastStatus(log + Responses(Current, created, now) + Responses(Timeout, expired, now), k) ==
            if k in Ids(expired) then Some(Timeout) else if k in Ids(created) then Some(Current) else LastStatus(log, k)
  {
    LastStatusOfBatch(log + Responses(Current, created, now), Timeout, expired, now, k);
    LastStatusOfBatch(log, Current, created, now, k);
  }

  /** Every creation due has its expiration pending. */
  ghost predicate Announceable(ins: map<string, Entry>, outs: map<string, Entry>, now: int) {
    forall k :: k in ins && ins[k].deadline <= now ==> k in outs
  }

  /** A timer event keeps an expiration pending for all that the client takes as current exactly if that is so. */
  lemma TimerKeepsClientIff(ins: map<string, Entry>, outs: map<string, Entry>, log: seq<Response>, objs: set<Object>, now: int,
                            created: seq<Entry>, ins': map<string, Entry>, expired: seq<Entry>, outs': map<string, Entry>)
    requires Creations(ins, objs) && Expirations(outs, objs) && ClientCovered(outs, log)
    requires TimerStep(ins, outs, now, created, expired, ins', outs')
    ensures ClientCovered(outs', log + Responses(Current, created, now) + Responses(Timeout, expired, now))
            <==> Announceable(ins, outs, now)
  {
    forall k: string
      ensures LastStatus(log + Responses(Current, created, now) + Responses(Timeout, expired, now), k) ==
              if k in Ids(expired) then Some(Timeout) else if k in Ids(created) then Some(Current) else LastStatus(log, k)
      ensures k in Ids(created) <==> k in ins && ins[k].deadline <= now
      ensures k in outs' <==> k in outs && k !in Ids(expired)
      ensures k in Ids(expired) ==> k in outs
    {
      LastTold(log, now, created, expired, k);
      StaysIff(ins, created, ins', now + 1, k);
    }
  }

  /** It keeps expirations pending for these and for all that is about to be created exactly if it is unhurried. */
  lemma TimerKeepsCoveredIff(ins: map<string, Entry>, outs: map<string, Entry>, log: seq<Response>, objs: set<Object>, now: int,
                             created: seq<Entry>, ins': map<string, Entry>, expired: seq<Entry>, outs': map<string, Entry>)
    requires Creations(ins, objs) && Expirations(outs, objs) && Covered(ins, outs, log)
    requires TimerStep(ins, outs, now, created, expired, ins', outs')
    ensures Covered(ins', outs', log + Responses(Current, created, now) + Responses(Timeout, expired, now))
            <==> Unhurried(ins, outs, now)
  {
    TimerKeepsClientIff(ins, outs, log, objs, now, created, ins', expired, outs');
    forall k: string
      ensures (k in ins' <==> k in ins && ins[k].deadline > now) && (k in outs' <==> k in outs && outs[k].deadline >= now)
    {
      StaysIff(ins, created, ins', now + 1, k);
      StaysIff(outs, expired, outs', now, k);
    }
  }

  /** Taking in an object keeps the log punctual and keeps expirations pending. */
  lemma AfterData(ins: map<string, Entry>, outs: map<string, Entry>, log: seq<Response>, objs: set<Object>,
                  obj: Object, now: int, ins': map<string, Entry>, outs': map<string, Entry>, r: Response)
    requires Creations(ins, objs) && Expirations(outs, objs) && Punctual(log, objs) && obj in objs
    requires ins' == InsAfter(ins, obj, now) && outs' == OutsAfter(outs, obj, now)
    requires r.Relayed? && r.obj == obj && r.at == now
    ensures Creations(ins', objs) && Expirations(outs', objs)
    ensures ClientCovered(outs, log) ==> ClientCovered(outs', log)
    ensures Covered(ins, outs, log) ==> Covered(ins', outs', log)
    ensures obj.creation <= now < obj.expiration ==> Punctual(log + [r], objs)
    ensures obj.creation <= now < obj.expiration && ClientCovered(outs, log) ==> ClientCovered(outs', log + [r])
    ensures obj.creation <= now < obj.expiration && Covered(ins, outs, log) ==> Covered(ins', outs', log + [r])
  {
    assert (log + [r])[..|log|] == log;
  }

  /** What is passed on unread says nothing about any identifier. */
  lemma AfterPassing(ins: map<string, Entry>, outs: map<string, Entry>, log: seq<Response>, objs: set<Object>)
    requires Punctual(log, objs)
    ensures Punctual(log + [Passed], objs)
    ensures ClientCovered(outs, log) ==> ClientCovered(outs, log + [Passed])
    ensures Covered(ins, outs, log) ==> Covered(ins, outs, log + [Passed])
  {
    assert (log + [Passed])[..|log|] == log;
  }

  /** The two heaps, and what was sent so far. */
  datatype Stage = Stage(ins: map<string, Entry>, outs: map<string, Entry>, log: seq<Response>)

  const START: Stage := Stage(map[], map[], [])

  ghost predicate Fires(s: Stage, now: int, created: seq<Entry>, expired: seq<Entry>, s': Stage) {
    && TimerStep(s.ins, s.outs, now, created, expired, s'.ins, s'.outs)
    && s'.log == s.log + Responses(Current, created, now) + Responses(Timeout, expired, now)
  }

  /** One round of the loop. */
  ghost predicate Step(s: Stage, e: Event, s': Stage) {
    match e
    case Timer(now) => exists created, expired :: Fires(s, now, created, expired, s')
    case Data(None, _, _) => s' == s.(log := s.log + [Passed])
    case Data(Some(obj), status, now) =>
      s' == Stage(InsAfter(s.ins, obj, now), OutsAfter(s.outs, obj, now),
                  if obj.creation <= now < obj.expiration then s.log + [Relayed(status, obj, now)] else s.log)
  }

  ghost predicate IsRun(events: seq<Event>, trace: seq<Stage>) {
    && |trace| == |events| + 1 && trace[0] == START
    && forall i :: 0 <= i < |events| ==> Step(trace[i], events[i], trace[i + 1])
  }

  class MiscTimeout {
    const timeoutHeap: TimeoutHeap<string, Object>
    const timeinHeap: TimeoutHeap<string, Object>

    ghost predicate Valid()
      reads timeoutHeap, timeinHeap
    {
      timeoutHeap != timeinHeap && timeoutHeap.Valid() && timeinHeap.Valid()
    }

    constructor ()
      ensures Valid() && fresh(timeoutHeap) && fresh(timeinHeap)
      ensures timeinHeap.contents == map[] && timeoutHeap.contents == map[]
    {
      timeoutHeap := new TimeoutHeap<string, Object>();
      timeinHeap := new TimeoutHeap<string, Object>();
    }

    /** How long to wait for one heap: up to its earliest deadline and no longer, five seconds when there is none. */
    method NextIn(heap: TimeoutHeap<string, Object>, now: int) returns (wait: int)
      requires heap.Valid()
      ensures wait >= 0
      ensures heap.contents == map[] ==> wait == 5 * SECOND
      ensures heap.contents != map[] ==>
                && (forall k :: k in heap.contents ==> now + wait <= Max(now, heap.contents[k].deadline))
                && exists k :: k in heap.contents && now + wait == Max(now, heap.contents[k].deadline)
    {
      var next := heap.Peek();
      if next.None? {
        return 5 * SECOND;
      }
      if next.value.deadline < now {
        return 0;
      }
      return next.value.deadline - now;
    }

    /** The wait ends at a deadline, or at once for one that has passed. */
    ghost static predicate WaitsFor(m: map<string, Entry>, now: int, wait: int) {
      exists k :: k in m && now + wait == Max(now, m[k].deadline)
    }

    /** The timer of the loop: it sleeps past no deadline of either heap, and not longer than five seconds without one. */
    method WaitFor(now: int) returns (wait: int)
      requires Valid()
      ensures wait >= 0
      ensures forall k :: k in timeinHeap.contents ==> now + wait <= Max(now, timeinHeap.contents[k].deadline)
      ensures forall k :: k in timeoutHeap.contents ==> now + wait <= Max(now, timeoutHeap.contents[k].deadline)
      ensures timeinHeap.contents == map[] || timeoutHeap.contents == map[] ==> wait <= 5 * SECOND
      ensures
        || (wait == 5 * SECOND && (timeinHeap.contents == map[] || timeoutHeap.contents == map[]))
        || WaitsFor(timeinHeap.contents, now, wait) || WaitsFor(timeoutHeap.contents, now, wait)
    {
      var to := NextIn(timeoutHeap, now);
      var ti := NextIn(timeinHeap, now);
      wait := to;
      if ti < to {
        wait := ti;
      }
    }

    /** Everything due is announced, creations first; right after it neither heap holds a due entry. */
    method SendTimeouts(now: int) returns (out: seq<Response>, ghost created: seq<Entry>, ghost expired: seq<Entry>)
      requires Valid()
      modifies timeoutHeap, timeinHeap
      ensures Valid()
      ensures out == Responses(Current, created, now) + Responses(Timeout, expired, now)
      ensures TimerStep(old(timeinHeap.contents), old(timeoutHeap.contents), now, created, expired,
                        timeinHeap.contents, timeoutHeap.contents)
    {
      var ins := timeinHeap.PopBefore(now + 1);  // creation not after now
      var outs := timeoutHeap.PopBefore(now);
      created, expired := ins, outs;
      out := Responses(Current, ins, now) + Responses(Timeout, outs, now);
    }

    /** Take in an object; it is passed on at once exactly when it is already created and not yet expired. */
    method UpdateDeadlines(obj: Object, now: int) returns (sendOk: bool)
      requires Valid()
      modifies timeoutHeap, timeinHeap
      ensures Valid()
      ensures sendOk <==> obj.creation <= now < obj.expiration
      ensures timeinHeap.contents == InsAfter(old(timeinHeap.contents), obj, now)
      ensures timeoutHeap.contents == OutsAfter(old(timeoutHeap.contents), obj, now)
    {
      sendOk := true;
      ghost var ins, outs := timeinHeap.contents, timeoutHeap.contents;
      var eti := Info(obj.id, obj.expiration, obj);
      if obj.creation > now {
        var _ := timeinHeap.Upsert(Info(obj.id, obj.creation, obj));
        var _ := timeoutHeap.Upsert(eti);
        sendOk := false;
      }
      assert timeinHeap.contents == InsAfter(ins, obj, now);
      assert timeoutHeap.contents == if obj.creation > now then outs[obj.id := eti] else outs;
      var known := timeoutHeap.Exists(obj.id);
      if obj.expiration > now {
        var _ := timeoutHeap.Upsert(eti);
      } else if known {
        var _ := timeoutHeap.Upsert(eti);
        sendOk := false;
      } else {
        sendOk := false;
      }
    }

    /** A whole run of the stage, from its start. */
    method Handle(events: seq<Event>) returns (log: seq<Response>, ghost trace: seq<Stage>)
      requires Valid() && timeinHeap.contents == map[] && timeoutHeap.contents == map[]
      modifies timeoutHeap, timeinHeap
      ensures Valid() && IsRun(events, trace)
      ensures trace[|events|] == Stage(timeinHeap.contents, timeoutHeap.contents, log)
    {
      log, trace := [], [START];
      for i := 0 to |events|
        invariant Valid() && |trace| == i + 1 && trace[0] == START
        invariant forall k :: 0 <= k < i ==> Step(trace[k], events[k], trace[k + 1])
        invariant trace[i] == Stage(timeinHeap.contents, timeoutHeap.contents, log)
      {
        match events[i] {
          case Timer(now) =>
            var out, created, expired := SendTimeouts(now);
            assert log + out == log + Responses(Current, created, now) + Responses(Timeout, expired, now);
            log := log + out;
            assert Fires(trace[i], now, created, expired, Stage(timeinHeap.contents, timeoutHeap.contents, log));
          case Data(None, _, _) =>
            log := log + [Passed];
          case Data(Some(obj), status, now) =>
            var sendOk := UpdateDeadlines(obj, now);
            if sendOk {
              log := log + [Relayed(status, obj, now)];
            }
        }
        ghost var next := Stage(timeinHeap.contents, timeoutHeap.contents, log);
        assert Step(trace[i], events[i], next);
        trace := trace + [next];
      }
    }
  }

  /** Over every run: no version is sent before its creation, or timed out at or before its expiration. */
  lemma {:induction false} PunctualAlways(events: seq<Event>, trace: seq<Stage>, n: nat)
    requires IsRun(events, trace) && n <= |events|
    ensures var objs := Received(events);
      Creations(trace[n].ins, objs) && Expirations(trace[n].outs, objs) && Punctual(trace[n].log, objs)
  {
    if n > 0 {
      PunctualAlways(events, trace, n - 1);
      StepIsPunctual(trace[n - 1], events[n - 1], trace[n], Received(events));
    }
  }

  lemma StepIsPunctual(s: Stage, e: Event, s': Stage, objs: set<Object>)
    requires Step(s, e, s') && Creations(s.ins, objs) && Expirations(s.outs, objs) && Punctual(s.log, objs)
    requires e.Data? && e.contents.Some? ==> e.contents.value in objs
    ensures Creations(s'.ins, objs) && Expirations(s'.outs, objs) && Punctual(s'.log, objs)
  {
    match e
    case Timer(now) =>
      var created, expired :| Fires(s, now, created, expired, s');
      AfterTimer(s.ins, s.outs, s.log, objs, now, created, s'.ins, expired, s'.outs);
    case Data(None, _, _) =>
    case Data(Some(obj), status, now) =>
      AfterData(s.ins, s.outs, s.log, objs, obj, now, s'.ins, s'.outs, Relayed(status, obj, now));
  }

  ghost predicate CoveredAt(s: Stage) {
    Covered(s.ins, s.outs, s.log)
  }

  ghost predicate UnhurriedAt(s: Stage, e: Event) {
    e.Timer? ==> Unhurried(s.ins, s.outs, e.now)
  }

  /** Steps keep expirations pending, timer events exactly if they are unhurried. */
  lemma StepKeepsCoveredIff(s: Stage, e: Event, s': Stage, objs: set<Object>)
    requires Step(s, e, s') && CoveredAt(s)
    requires Creations(s.ins, objs) && Expirations(s.outs, objs) && Punctual(s.log, objs)
    requires e.Data? && e.contents.Some? ==> e.contents.value in objs
    ensures CoveredAt(s') <==> UnhurriedAt(s, e)
  {
    match e
    case Timer(now) =>
      var created, expired :| Fires(s, now, created, expired, s');
      TimerKeepsCoveredIff(s.ins, s.outs, s.log, objs, now, created, s'.ins, expired, s'.outs);
    case Data(None, _, _) =>
      AfterPassing(s.ins, s.outs, s.log, objs);
    case Data(Some(obj), status, now) =>
      AfterData(s.ins, s.outs, s.log, objs, obj, now, s'.ins, s'.outs, Relayed(status, obj, now));
  }

  ghost predicate ClientCoveredAt(s: Stage) {
    ClientCovered(s.outs, s.log)
  }

  ghost predicate AnnounceableAt(s: Stage, e: Event) {
    e.Timer? ==> Announceable(s.ins, s.outs, e.now)
  }

  lemma StepKeepsClientIff(s: Stage, e: Event, s': Stage, objs: set<Object>)
    requires Step(s, e, s') && ClientCoveredAt(s)
    requires Creations(s.ins, objs) && Expirations(s.outs, objs) && Punctual(s.log, objs)
    requires e.Data? && e.contents.Some? ==> e.contents.value in objs
    ensures ClientCoveredAt(s') <==> AnnounceableAt(s, e)
  {
    match e
    case Timer(now) =>
      var created, expired :| Fires(s, now, created, expired, s');
      TimerKeepsClientIff(s.ins, s.outs, s.log, objs, now, created, s'.ins, expired, s'.outs);
    case Data(None, _, _) =>
      AfterPassing(s.ins, s.outs, s.log, objs);
    case Data(Some(obj), status, now) =>
      AfterData(s.ins, s.outs, s.log, objs, obj, now, s'.ins, s'.outs, Relayed(status, obj, now));
  }

  ghost predicate ClientCoveredUpTo(trace: seq<Stage>, n: nat)
    requires n <= |trace|
  {
    forall k :: 0 <= k < n ==> ClientCoveredAt(trace[k])
  }

  ghost predicate AnnounceableUpTo(events: seq<Event>, trace: seq<Stage>, n: nat)
    requires n <= |events| && n <= |trace|
  {
    forall k :: 0 <= k < n ==> AnnounceableAt(trace[k], events[k])
  }

  /**
   Over every run: whatever the client was last told is current has its
   expiration pending all along, exactly if at every timer event every creation
   due has its expiration pending.
   */
  lemma {:induction false} ClientCoveredIff(events: seq<Event>, trace: seq<Stage>, n: nat)
    requires IsRun(events, trace) && n <= |events|
    ensures ClientCoveredUpTo(trace, n + 1) <==> AnnounceableUpTo(events, trace, n)
  {
    if n > 0 {
      ClientCoveredIff(events, trace, n - 1);
      if ClientCoveredUpTo(trace, n) {
        PunctualAlways(events, trace, n - 1);
        StepKeepsClientIff(trace[n - 1], events[n - 1], trace[n], Received(events));
      }
    }
  }

  ghost predicate CoveredUpTo(trace: seq<Stage>, n: nat)
    requires n <= |trace|
  {
    forall k :: 0 <= k < n ==> CoveredAt(trace[k])
  }

  ghost predicate UnhurriedUpTo(events: seq<Event>, trace: seq<Stage>, n: nat)
    requires n <= |events| && n <= |trace|
  {
    forall k :: 0 <= k < n ==> UnhurriedAt(trace[k], events[k])
  }

  /**
   Over every run: whatever the client was last told is current, and whatever
   is about to be created, has its expiration pending all along, exactly if
   every timer event is unhurried.
   */
  lemma {:induction false} CoveredIff(events: seq<Event>, trace: seq<Stage>, n: nat)
    requires IsRun(events, trace) && n <= |events|
    ensures CoveredUpTo(trace, n + 1) <==> UnhurriedUpTo(events, trace, n)
  {
    if n > 0 {
      CoveredIff(events, trace, n - 1);
      if CoveredUpTo(trace, n) {
        PunctualAlways(events, trace, n - 1);
        StepKeepsCoveredIff(trace[n - 1], events[n - 1], trace[n], Received(events));
      }
    }
  }

  lemma PatientIsUnhurried(events: seq<Event>, trace: seq<Stage>, k: nat)
    requires IsRun(events, trace) && k < |events| && Patient(Received(events)) && CoveredAt(trace[k])
    ensures UnhurriedAt(trace[k], events[k])
  {
    PunctualAlways(events, trace, k);
  }

  /** Patient versions are enough for that, at any clock readings. */
  lemma {:induction false} PatientIsCovered(events: seq<Event>, trace: seq<Stage>, n: nat)
    requires IsRun(events, trace) && n <= |events| && Patient(Received(events))
    ensures UnhurriedUpTo(events, trace, n) && CoveredUpTo(trace, n + 1)
  {
    if n > 0 {
      PatientIsCovered(events, trace, n - 1);
      assert CoveredAt(trace[n - 1]);
      PatientIsUnhurried(events, trace, n - 1);
    }
    CoveredIff(events, trace, n);
  }

  lemma ExpiresAlone(s: Stage, now: int, e: Entry)
    requires s.outs == map[e.id := e] && e.deadline < now && forall k :: k in s.ins ==> s.ins[k].deadline > now
    ensures Fires(s, now, [], [e], Stage(s.ins, map[], s.log + [Sent(Timeout, e.obj, now)]))
  {
    assert Ids([e]) == {e.id};
    assert s.log + Responses(Current, [], now) == s.log;
  }

  lemma CreatedAlone(s: Stage, now: int, e: Entry)
    requires s.ins == map[e.id := e] && e.deadline <= now && s.outs == map[]
    ensures Fires(s, now, [e], [], Stage(map[], map[], s.log + [Sent(Current, e.obj, now)]))
  {
    assert Ids([e]) == {e.id};
    assert s.log + Responses(Current, [e], now) + Responses(Timeout, [], now) == s.log + [Sent(Current, e.obj, now)];
  }

  /**
   A run that fails.  An object announced for later is replaced by a short
   lived version, which expires; the first one then comes up as current, and
   no expiration is pending for it.
   */
  lemma ForgottenExpiration(later: Object, brief: Object, t0: int, t1: int, t2: int) returns (trace: seq<Stage>)
    requires later.id == brief.id
    requires brief.creation <= t0 < brief.expiration < t1 < later.creation <= t2
    ensures IsRun([Data(Some(later), Current, t0), Data(Some(brief), Current, t0), Timer(t1), Timer(t2)], trace)
    ensures LastStatus(trace[4].log, later.id) == Some(Current) && trace[4].ins == trace[4].outs == map[]
  {
    var k, ins, brief' := later.id, map[later.id := Info(later.id, later.creation, later)], Info(brief.id, brief.expiration, brief);
    var s1 := Stage(ins, map[k := Info(later.id, later.expiration, later)], []);
    var s2 := Stage(ins, map[k := brief'], [Relayed(Current, brief, t0)]);
    var s3 := Stage(ins, map[], s2.log + [Sent(Timeout, brief, t1)]);
    var s4 := Stage(map[], map[], s3.log + [Sent(Current, later, t2)]);
    ExpiresAlone(s2, t1, brief');
    CreatedAlone(s3, t2, ins[k]);
    trace := [START, s1, s2, s3, s4];
  }
}
