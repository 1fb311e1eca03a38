/**
 What the timeout stage of the miscellaneous data stream sends, over every run,
 in terms of the events alone.
 */
module MiscTimeoutRuns {
  import opened Common
  import opened TimeoutHeaps
  import opened MiscTimeouts

  /** A version of an object arrives. */
  predicate Brings(e: Event, k: string) {
    e.Data? && e.contents.Some? && e.contents.value.id == k
  }

  function ObjectOf(e: Event): (obj: Object)
    requires e.Data? && e.contents.Some?
  {
    e.contents.value
  }

  /** It is not created yet when it arrives. */
  predicate IsEarly(e: Event) {
    e.Data? && e.contents.Some? && ObjectOf(e).creation > e.now
  }

  /** It is not over when it arrives: its creation or its expiration is still to come. */
  predicate IsOpen(e: Event) {
    e.Data? && e.contents.Some? && (ObjectOf(e).creation > e.now || ObjectOf(e).expiration > e.now)
  }

  /** Event `i` brings the newest version of an object, before event `n`. */
  ghost predicate Newest(events: seq<Event>, n: nat, k: string, i: nat)
    requires n <= |events|
  {
    i < n && Brings(events[i], k) && forall m :: i < m < n ==> !Brings(events[m], k)
  }

  /** No timer event up to `n` comes after the expiration of the version that is newest then. */
  ghost predicate LastsFrom(events: seq<Event>, n: nat, k: string, j: nat)
    requires n <= |events|
  {
    forall i: nat, m: nat :: j <= i && m < n && events[m].Timer? && Newest(events, m, k, i) ==>
                     events[m].now <= ObjectOf(events[i]).expiration
  }

  /** An expiration is awaited: a version came that was not over, and every timer event since found one that was not. */
  ghost predicate AwaitedFrom(events: seq<Event>, n: nat, k: string, j: nat)
    requires n <= |events|
  {
    j < n && Brings(events[j], k) && IsOpen(events[j]) && LastsFrom(events, n, k, j)
  }

  ghost predicate Awaited(events: seq<Event>, n: nat, k: string)
    requires n <= |events|
  {
    exists j: nat :: AwaitedFrom(events, n, k, j)
  }

  /** What the stage holds of expirations is what is awaited, of the newest version. */
  ghost predicate Expects(events: seq<Event>, n: nat, outs: map<string, Entry>, k: string)
    requires n <= |events|
  {
    && (k in outs <==> Awaited(events, n, k))
    && (k in outs ==> exists i: nat :: Newest(events, n, k, i) && outs[k] == Info(k, ObjectOf(events[i]).expiration, ObjectOf(events[i])))
  }

  lemma NewestIsOne(events: seq<Event>, n: nat, k: string, i: nat, j: nat)
    requires n <= |events| && Newest(events, n, k, i) && Newest(events, n, k, j)
    ensures i == j
  {
  }

  /** An event that is neither a timer event nor brings the object changes nothing for it. */
  lemma NothingForIt(events: seq<Event>, n: nat, k: string)
    requires n < |events| && !events[n].Timer? && !Brings(events[n], k)
    ensures Awaited(events, n + 1, k) <==> Awaited(events, n, k)
    ensures forall i: nat :: Newest(events, n + 1, k, i) <==> Newest(events, n, k, i)
  {
    var n' := n + 1;
    if j: nat :| AwaitedFrom(events, n', k, j) {
      assert AwaitedFrom(events, n, k, j);
    }
    if j: nat :| AwaitedFrom(events, n, k, j) {
      assert AwaitedFrom(events, n + 1, k, j);
    }
  }

  /** A new version is awaited if it is not over, or if one was already; and it is the newest. */
  lemma VersionIsAwaited(events: seq<Event>, n: nat, k: string)
    requires n < |events| && Brings(events[n], k)
    ensures Awaited(events, n + 1, k) <==> IsOpen(events[n]) || Awaited(events, n, k)
    ensures Newest(events, n + 1, k, n)
  {
    var n' := n + 1;
    if j: nat :| j != n && AwaitedFrom(events, n', k, j) {
      assert AwaitedFrom(events, n, k, j);
    }
    if IsOpen(events[n]) {
      assert AwaitedFrom(events, n + 1, k, n);
    }
    if j: nat :| AwaitedFrom(events, n, k, j) {
      assert AwaitedFrom(events, n + 1, k, j);
    }
  }

  /** After a timer event an expiration is awaited if it was, and is not due. */
  lemma TimerEndsWaiting(events: seq<Event>, n: nat, k: string, i: nat)
    requires n < |events| && events[n].Timer? && Newest(events, n, k, i)
    ensures Awaited(events, n + 1, k) <==> Awaited(events, n, k) && events[n].now <= ObjectOf(events[i]).expiration
    ensures Newest(events, n + 1, k, i)
  {
    var n' := n + 1;
    if j: nat :| AwaitedFrom(events, n', k, j) {
      assert j <= i && AwaitedFrom(events, n, k, j);
    }
    if events[n].now <= ObjectOf(events[i]).expiration {
      if j: nat :| AwaitedFrom(events, n, k, j) {
        forall i': nat, m: nat | j <= i' && m < n + 1 && events[m].Timer? && Newest(events, m, k, i')
          ensures events[m].now <= ObjectOf(events[i']).expiration
        {
          if m == n {
            NewestIsOne(events, n, k, i, i');
          }
        }
        assert AwaitedFrom(events, n + 1, k, j);
      }
    }
  }

  lemma StepExpects(events: seq<Event>, n: nat, s: Stage, s': Stage, k: string)
    requires n < |events| && Step(s, events[n], s') && Expects(events, n, s.outs, k)
    ensures Expects(events, n + 1, s'.outs, k)
  {
    match events[n]
    case Timer(now) =>
      TimerExpects(events, n, s, s', k);
    case Data(None, _, _) =>
      NothingForIt(events, n, k);
    case Data(Some(obj), status, now) =>
      if obj.id == k {
        VersionIsAwaited(events, n, k);
      } else {
        NothingForIt(events, n, k);
        assert s'.outs.Keys - {obj.id} == s.outs.Keys - {obj.id};
      }
  }

  lemma TimerExpects(events: seq<Event>, n: nat, s: Stage, s': Stage, k: string)
    requires n < |events| && events[n].Timer? && Step(s, events[n], s') && Expects(events, n, s.outs, k)
    ensures Expects(events, n + 1, s'.outs, k)
  {
    var now := events[n].now;
    var created, expired :| Fires(s, now, created, expired, s');
    StaysIff(s.outs, expired, s'.outs, now, k);
    if k in s.outs {
      var i: nat :| Newest(events, n, k, i) && s.outs[k] == Info(k, ObjectOf(events[i]).expiration, ObjectOf(events[i]));
      TimerEndsWaiting(events, n, k, i);
    } else {
      var n' := n + 1;
      if j: nat :| AwaitedFrom(events, n', k, j) {
        assert AwaitedFrom(events, n, k, j);
      }
    }
  }

  /**
   In every run, an expiration is pending exactly if it is awaited, and it is
   that of the newest version received.
   */
  lemma {:induction false} PendsNewest(events: seq<Event>, trace: seq<Stage>, n: nat, k: string)
    requires IsRun(events, trace) && n <= |events|
    ensures Expects(events, n, trace[n].outs, k)
  {
    if n > 0 {
      PendsNewest(events, trace, n - 1, k);
      StepExpects(events, n - 1, trace[n - 1], trace[n], k);
    }
  }

  // ---------- creations ----------

  /** Event `i` brings the newest version that came early, and no timer event has reached its creation. */
  ghost predicate Coming(events: seq<Event>, n: nat, k: string, i: nat)
    requires n <= |events|
  {
    && i < n && Brings(events[i], k) && IsEarly(events[i])
    && forall m :: i < m < n ==> !(Brings(events[m], k) && IsEarly(events[m]))
                                 && (events[m].Timer? ==> events[m].now < ObjectOf(events[i]).creation)
  }

  ghost predicate Announces(events: seq<Event>, n: nat, ins: map<string, Entry>, k: string)
    requires n <= |events|
  {
    && (forall i: nat :: Coming(events, n, k, i) ==> k in ins && ins[k] == Info(k, ObjectOf(events[i]).creation, ObjectOf(events[i])))
    && (k in ins ==> exists i: nat :: Coming(events, n, k, i))
  }

  /** An event that brings no early version leaves what is coming, but for a timer event that reaches it. */
  lemma ComingNext(events: seq<Event>, n: nat, k: string, i: nat)
    requires n < |events| && !(Brings(events[n], k) && IsEarly(events[n]))
    ensures Coming(events, n + 1, k, i) <==>
            Coming(events, n, k, i) && (events[n].Timer? ==> events[n].now < ObjectOf(events[i]).creation)
  {
  }

  lemma StepAnnounces(events: seq<Event>, n: nat, s: Stage, s': Stage, k: string)
    requires n < |events| && Step(s, events[n], s') && Announces(events, n, s.ins, k)
    ensures Announces(events, n + 1, s'.ins, k)
  {
    if Brings(events[n], k) && IsEarly(events[n]) {
      var n' := n + 1;
      assert Coming(events, n', k, n);
      forall i: nat | Coming(events, n', k, i) ensures i == n {
      }
    } else {
      if events[n].Timer? {
        TimerStays(events, n, s, s', k);
      } else {
        assert k in s'.ins <==> k in s.ins;
      }
      forall i: nat
        ensures Coming(events, n + 1, k, i) <==>
                Coming(events, n, k, i) && (events[n].Timer? ==> events[n].now < ObjectOf(events[i]).creation)
      {
        ComingNext(events, n, k, i);
      }
      if k in s'.ins {
        var i: nat :| Coming(events, n, k, i);
        assert Coming(events, n + 1, k, i);
      }
    }
  }

  lemma TimerStays(events: seq<Event>, n: nat, s: Stage, s': Stage, k: string)
    requires n < |events| && events[n].Timer? && Step(s, events[n], s')
    ensures k in s'.ins <==> k in s.ins && s.ins[k].deadline > events[n].now
    ensures k in s'.ins ==> s'.ins[k] == s.ins[k]
  {
    var created, expired :| Fires(s, events[n].now, created, expired, s');
    StaysIff(s.ins, created, s'.ins, events[n].now + 1, k);
  }

  /** In every run, a creation is pending exactly if it is to come, and it is that of the newest version that came early. */
  lemma {:induction false} PendsComing(events: seq<Event>, trace: seq<Stage>, n: nat, k: string)
    requires IsRun(events, trace) && n <= |events|
    ensures Announces(events, n, trace[n].ins, k)
  {
    if n > 0 {
      PendsComing(events, trace, n - 1, k);
      StepAnnounces(events, n - 1, trace[n - 1], trace[n], k);
    }
  }

  // ---------- what is sent ----------

  /** What a timer event announces as current. */
  ghost predicate FallsCreated(events: seq<Event>, n: nat, v: Object)
    requires n < |events| && events[n].Timer?
  {
    exists i: nat :: Coming(events, n, v.id, i) && ObjectOf(events[i]) == v && v.creation <= events[n].now
  }

  /** What it announces as timed out. */
  ghost predicate FallsExpired(events: seq<Event>, n: nat, v: Object)
    requires n < |events| && events[n].Timer?
  {
    && Awaited(events, n, v.id) && v.expiration < events[n].now
    && exists i: nat :: Newest(events, n, v.id, i) && ObjectOf(events[i]) == v
  }

  ghost predicate DistinctObjects(rs: seq<Response>) {
    forall p, q :: 0 <= p < q < |rs| ==> rs[p] != rs[q]
  }

  /** What an event adds to the log, by the events alone. */
  ghost predicate Answers(events: seq<Event>, n: nat, added: seq<Response>)
    requires n < |events|
  {
    match events[n]
    case Timer(now) =>
      && DistinctObjects(added)
      && (forall r :: r in added ==> r.Sent? && r.at == now && (r.status == Current || r.status == Timeout))
      && (forall v :: Sent(Current, v, now) in added <==> FallsCreated(events, n, v))
      && (forall v :: Sent(Timeout, v, now) in added <==> FallsExpired(events, n, v))
    case Data(None, _, _) => added == [Passed]
    case Data(Some(obj), status, now) =>
      added == if obj.creation <= now < obj.expiration then [Relayed(status, obj, now)] else []
  }

  lemma SentIff(status: Status, entries: seq<Entry>, at: int, m: map<string, Entry>, rest: map<string, Entry>, bound: int, v: Object)
    requires Drained(m, entries, rest)
    requires (forall e :: e in entries ==> e.deadline < bound) && (forall k :: k in rest ==> rest[k].deadline >= bound)
    requires forall k :: k in m ==> m[k].obj.id == k
    ensures Sent(status, v, at) in Responses(status, entries, at) <==> v.id in m && m[v.id].obj == v && m[v.id].deadline < bound
  {
    StaysIff(m, entries, rest, bound, v.id);
    if v.id in m && m[v.id].deadline < bound {
      assert v.id in Ids(entries);
      var i :| 0 <= i < |entries| && entries[i].id == v.id;
      assert Responses(status, entries, at)[i] == Sent(status, entries[i].obj, at);
    }
    if Sent(status, v, at) in Responses(status, entries, at) {
      var i :| 0 <= i < |entries| && Responses(status, entries, at)[i] == Sent(status, v, at);
      assert entries[i] in entries;
    }
  }

  lemma DistinctSent(status: Status, entries: seq<Entry>, at: int, m: map<string, Entry>, rest: map<string, Entry>)
    requires Drained(m, entries, rest) && forall k :: k in m ==> m[k].obj.id == k
    ensures DistinctObjects(Responses(status, entries, at))
  {
    var rs := Responses(status, entries, at);
    forall p, q | 0 <= p < q < |rs| ensures rs[p] != rs[q] {
      assert entries[p].id != entries[q].id;
    }
  }

  lemma TwoKinds(a: seq<Response>, b: seq<Response>)
    requires DistinctObjects(a) && DistinctObjects(b)
    requires forall r :: r in a ==> r.Sent? && r.status == Current
    requires forall r :: r in b ==> r.Sent? && r.status == Timeout
    ensures DistinctObjects(a + b)
  {
    forall p, q | 0 <= p < q < |a + b| ensures (a + b)[p] != (a + b)[q] {
      if p < |a| <= q {
        assert a[p] in a && b[q - |a|] in b;
      }
    }
  }

  lemma CreatedIff(events: seq<Event>, n: nat, ins: map<string, Entry>, v: Object)
    requires n < |events| && events[n].Timer? && Announces(events, n, ins, v.id)
    ensures FallsCreated(events, n, v) <==> v.id in ins && ins[v.id].obj == v && ins[v.id].deadline <= events[n].now
  {
    if v.id in ins {
      var i: nat :| Coming(events, n, v.id, i);
    }
  }

  lemma ExpiredIff(events: seq<Event>, n: nat, outs: map<string, Entry>, v: Object)
    requires n < |events| && events[n].Timer? && Expects(events, n, outs, v.id)
    ensures FallsExpired(events, n, v) <==> v.id in outs && outs[v.id].obj == v && outs[v.id].deadline < events[n].now
  {
    if v.id in outs {
      var i: nat :| Newest(events, n, v.id, i) && outs[v.id] == Info(v.id, ObjectOf(events[i]).expiration, ObjectOf(events[i]));
      forall j: nat | Newest(events, n, v.id, j) ensures j == i {
        NewestIsOne(events, n, v.id, i, j);
      }
    }
  }

  lemma TimerAnswers(events: seq<Event>, n: nat, s: Stage, created: seq<Entry>, expired: seq<Entry>, s': Stage, objs: set<Object>)
    requires n < |events| && events[n].Timer? && Fires(s, events[n].now, created, expired, s')
    requires Creations(s.ins, objs) && Expirations(s.outs, objs)
    requires forall k :: Announces(events, n, s.ins, k) && Expects(events, n, s.outs, k)
    ensures Answers(events, n, Responses(Current, created, events[n].now) + Responses(Timeout, expired, events[n].now))
  {
    var now := events[n].now;
    var a, b := Responses(Current, created, now), Responses(Timeout, expired, now);
    DistinctSent(Current, created, now, s.ins, s'.ins);
    DistinctSent(Timeout, expired, now, s.outs, s'.outs);
    TwoKinds(a, b);
    forall v ensures Sent(Current, v, now) in a + b <==> FallsCreated(events, n, v) {
      assert Announces(events, n, s.ins, v.id);
      SentIff(Current, created, now, s.ins, s'.ins, now + 1, v);
      CreatedIff(events, n, s.ins, v);
    }
    forall v ensures Sent(Timeout, v, now) in a + b <==> FallsExpired(events, n, v) {
      assert Expects(events, n, s.outs, v.id);
      SentIff(Timeout, expired, now, s.outs, s'.outs, now, v);
      ExpiredIff(events, n, s.outs, v);
    }
  }

  /** What event `n` of a run adds to the log. */
  ghost function Added(trace: seq<Stage>, n: nat): (rs: seq<Response>)
    requires n + 1 < |trace| && |trace[n].log| <= |trace[n + 1].log|
  {
    trace[n + 1].log[|trace[n].log|..]
  }

  /**
   In every run every event adds to the log exactly what the events up to it
   call for: an object as it came if it is created and not expired, and at a
   timer event, each once, the newest versions that came early and are created
   now, and the newest versions whose expiration is awaited and over.
   */
  lemma AnswersAlways(events: seq<Event>, trace: seq<Stage>, n: nat)
    requires IsRun(events, trace) && n < |events|
    ensures trace[n].log <= trace[n + 1].log && Answers(events, n, Added(trace, n))
  {
    assert Step(trace[n], events[n], trace[n + 1]);
    if events[n].Timer? {
      PunctualAlways(events, trace, n);
      forall k ensures Announces(events, n, trace[n].ins, k) && Expects(events, n, trace[n].outs, k) {
        PendsComing(events, trace, n, k);
        PendsNewest(events, trace, n, k);
      }
      FiringAnswers(events, n, trace[n], trace[n + 1], Received(events));
    }
  }

  lemma FiringAnswers(events: seq<Event>, n: nat, s: Stage, s': Stage, objs: set<Object>)
    requires n < |events| && events[n].Timer? && Step(s, events[n], s') && Creations(s.ins, objs) && Expirations(s.outs, objs)
    requires forall k :: Announces(events, n, s.ins, k) && Expects(events, n, s.outs, k)
    ensures s.log <= s'.log && Answers(events, n, s'.log[|s.log|..])
  {
    var now := events[n].now;
    var created, expired :| Fires(s, now, created, expired, s');
    TimerAnswers(events, n, s, created, expired, s', objs);
    assert s'.log == s.log + (Responses(Current, created, now) + Responses(Timeout, expired, now));
  }

  /** The version that event `i` brings stays the newest up to timer event `j`, the first one after its expiration. */
  ghost predicate EndsAt(events: seq<Event>, i: nat, j: nat) {
    && i < j < |events| && events[i].Data? && events[i].contents.Some? && events[j].Timer?
    && Newest(events, j, ObjectOf(events[i]).id, i) && ObjectOf(events[i]).expiration < events[j].now
    && forall m :: i < m < j && events[m].Timer? ==> events[m].now <= ObjectOf(events[i]).expiration
  }

  /** With no timer event after its expiration, the newest version is awaited as it was on arrival. */
  lemma {:induction false} StaysAwaited(events: seq<Event>, i: nat, n: nat, k: string)
    requires i < n <= |events| && Newest(events, n, k, i)
    requires forall m :: i < m < n && events[m].Timer? ==> events[m].now <= ObjectOf(events[i]).expiration
    ensures Awaited(events, n, k) <==> IsOpen(events[i]) || Awaited(events, i, k)
  {
    if n == i + 1 {
      VersionIsAwaited(events, i, k);
    } else {
      StaysAwaited(events, i, n - 1, k);
      if events[n - 1].Timer? {
        TimerEndsWaiting(events, n - 1, k, i);
      } else {
        NothingForIt(events, n - 1, k);
      }
    }
  }

  /** The first timer event after the expiration of a version tells of it exactly if that was not over on arrival, or awaited. */
  lemma ToldIff(events: seq<Event>, trace: seq<Stage>, i: nat, j: nat)
    requires IsRun(events, trace) && EndsAt(events, i, j)
    ensures trace[j].log <= trace[j + 1].log
    ensures Sent(Timeout, ObjectOf(events[i]), events[j].now) in Added(trace, j) <==>
            IsOpen(events[i]) || Awaited(events, i, ObjectOf(events[i]).id)
  {
    AnswersAlways(events, trace, j);
    StaysAwaited(events, i, j, ObjectOf(events[i]).id);
  }

  /**
   So a version that arrives for an object the client was last told is current,
   and for which no other follows, is told of by the first timer event after its
   expiration, where the client's expirations are pending.
   */
  lemma ToldInTime(events: seq<Event>, trace: seq<Stage>, i: nat, j: nat)
    requires IsRun(events, trace) && EndsAt(events, i, j) && ClientCoveredAt(trace[i])
    requires LastStatus(trace[i].log, ObjectOf(events[i]).id) == Some(Current)
    ensures trace[j].log <= trace[j + 1].log && Sent(Timeout, ObjectOf(events[i]), events[j].now) in Added(trace, j)
  {
    PendsNewest(events, trace, i, ObjectOf(events[i]).id);
    ToldIff(events, trace, i, j);
  }

  lemma NothingFires(s: Stage, now: int)
    requires s.ins == map[] && s.outs == map[]
    ensures Fires(s, now, [], [], s)
  {
    var none: seq<Entry> := [];
    assert Ids(none) == {};
    assert s.log + Responses(Current, [], now) + Responses(Timeout, [], now) == s.log;
  }

  /**
   Where they are not, it can fail.  After the run that forgets an expiration,
   the object the client takes as current is replaced by a version that is over
   on arrival, and no timer event tells of it.
   */
  lemma NeverTold(later: Object, brief: Object, over: Object, t0: int, t1: int, t2: int, t3: int, t4: int)
    returns (events: seq<Event>, trace: seq<Stage>)
    requires later.id == brief.id == over.id && brief.creation <= t0 < brief.expiration < t1 < later.creation <= t2
    requires over.creation <= t3 && over.expiration <= t3 < t4
    ensures IsRun(events, trace) && EndsAt(events, 4, 5) && ObjectOf(events[4]) == over && events[5] == Timer(t4)
    ensures LastStatus(trace[4].log, over.id) == Some(Current) && trace[6].log == trace[5].log == trace[4].log
  {
    var four := ForgottenExpiration(later, brief, t0, t1, t2);
    var start := [Data(Some(later), Current, t0), Data(Some(brief), Current, t0), Timer(t1), Timer(t2)];
    var e, s := Data(Some(over), Current, t3), four[4];
    NothingFires(s, t4);
    RunGoesOn(start, four, e, s);
    RunGoesOn(start + [e], four + [s], Timer(t4), s);
    events, trace := start + [e] + [Timer(t4)], four + [s] + [s];
  }

  lemma RunGoesOn(events: seq<Event>, trace: seq<Stage>, e: Event, s: Stage)
    requires IsRun(events, trace) && Step(trace[|events|], e, s)
    ensures IsRun(events + [e], trace + [s])
  {
  }
}
