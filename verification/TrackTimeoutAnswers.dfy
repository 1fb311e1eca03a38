/** What the track timeout stage answers to each event, over every run, in terms of the events and what was told. */
module TrackTimeoutAnswers {
  import opened Common
  import opened TimeoutHeaps
  import opened TrackTimeouts
  import opened TrackTimeoutRuns

  /** An update of a track that is not timed out on arrival. */
  ghost predicate Accepted(timeout: int, e: Event, k: string) {
    e.Update? && e.track.Some? && e.track.value.id == k && Readings(e) && !Refuses(timeout, e.track.value, e.nows)
  }

  /** Event `i` is the newest such update of a track, before event `n`. */
  ghost predicate Newest(timeout: int, events: seq<Event>, n: nat, k: string, i: nat)
    requires n <= |events|
  {
    i < n && Accepted(timeout, events[i], k) && forall m :: i < m < n ==> !Accepted(timeout, events[m], k)
  }

  /** What event `n` of a run adds to the log. */
  ghost function Added(trace: seq<Stage>, n: nat): (os: seq<Out>)
    requires n + 1 < |trace|
  {
    if |trace[n].log| <= |trace[n + 1].log| then trace[n + 1].log[|trace[n].log|..] else []
  }

  /** A timer event in between has told the timeout of the update that event `i` brought. */
  ghost predicate ToldSince(events: seq<Event>, trace: seq<Stage>, i: nat, m: nat)
    requires |trace| == |events| + 1 && i < |events| && events[i].Update? && events[i].track.Some?
  {
    i < m < |events| && events[m].Timer? && Told(Timeout, events[i].track.value) in Added(trace, m)
  }

  /** The newest accepted update of a track whose timeout was not told since. */
  ghost predicate Pending(timeout: int, events: seq<Event>, trace: seq<Stage>, n: nat, k: string, i: nat)
    requires n <= |events| && |trace| == |events| + 1
  {
    Newest(timeout, events, n, k, i) && forall m: nat :: m < n ==> !ToldSince(events, trace, i, m)
  }

  function EntryOf(timeout: int, e: Event): (x: Entry)
    requires e.Update? && e.track.Some?
  {
    Info(e.track.value.id, Deadline(e.track.value.targets, timeout), e.track.value)
  }

  /** What the stage holds for a track is the update that is pending. */
  ghost predicate Holds(timeout: int, events: seq<Event>, trace: seq<Stage>, n: nat, k: string)
    requires n <= |events| && |trace| == |events| + 1
  {
    && (forall i: nat :: Pending(timeout, events, trace, n, k, i) ==> k in trace[n].heap && trace[n].heap[k] == EntryOf(timeout, events[i]))
    && (k in trace[n].heap ==> exists i: nat :: Pending(timeout, events, trace, n, k, i))
  }

  /** An event that is no accepted update of a track leaves what is pending, unless it is told now. */
  lemma PendingNext(timeout: int, events: seq<Event>, trace: seq<Stage>, n: nat, k: string, i: nat)
    requires n < |events| && |trace| == |events| + 1 && !Accepted(timeout, events[n], k)
    ensures Pending(timeout, events, trace, n + 1, k, i) <==>
            Pending(timeout, events, trace, n, k, i) && !ToldSince(events, trace, i, n)
  {
    NewestNext(timeout, events, n, k, i);
  }

  lemma NewestNext(timeout: int, events: seq<Event>, n: nat, k: string, i: nat)
    requires n < |events| && !Accepted(timeout, events[n], k)
    ensures Newest(timeout, events, n + 1, k, i) <==> Newest(timeout, events, n, k, i)
  {
  }

  lemma NewestIsLast(timeout: int, events: seq<Event>, trace: seq<Stage>, n: nat, k: string, i: nat)
    requires n < |events| && |trace| == |events| + 1 && Accepted(timeout, events[n], k)
    ensures Pending(timeout, events, trace, n + 1, k, i) <==> i == n
  {
  }

  /** What an update does to the deadlines. */
  lemma UpdateHeap(timeout: int, s: Stage, e: Event, s': Stage, k: string)
    requires e.Update? && Step(timeout, s, e, s')
    ensures if Accepted(timeout, e, k) then k in s'.heap && s'.heap[k] == EntryOf(timeout, e)
            else (k in s'.heap <==> k in s.heap) && (k in s.heap ==> s'.heap[k] == s.heap[k])
  {
  }

  lemma UpdateHolds(timeout: int, events: seq<Event>, trace: seq<Stage>, n: nat, k: string)
    requires |trace| == |events| + 1 && n < |events| && events[n].Update? && Step(timeout, trace[n], events[n], trace[n + 1])
    requires Holds(timeout, events, trace, n, k)
    ensures Holds(timeout, events, trace, n + 1, k)
  {
    var n' := n + 1;
    UpdateHeap(timeout, trace[n], events[n], trace[n'], k);
    if Accepted(timeout, events[n], k) {
      NewestIsLast(timeout, events, trace, n, k, n);
      forall i: nat | Pending(timeout, events, trace, n', k, i) ensures i == n {
        NewestIsLast(timeout, events, trace, n, k, i);
      }
    } else {
      forall i: nat ensures Pending(timeout, events, trace, n', k, i) <==> Pending(timeout, events, trace, n, k, i) {
        PendingNext(timeout, events, trace, n, k, i);
      }
      if k in trace[n'].heap {
        var i: nat :| Pending(timeout, events, trace, n, k, i);
        assert Pending(timeout, events, trace, n', k, i);
      }
    }
  }

  /** A batch of timeouts tells of an entry exactly if it holds it. */
  lemma ToldInBatch(sent: seq<Entry>, x: Entry)
    requires (forall i :: 0 <= i < |sent| ==> sent[i].id == sent[i].obj.id) && x.id == x.obj.id
    ensures Told(Timeout, x.obj) in Timeouts(sent) ==> x.id in Ids(sent)
    ensures x in sent ==> Told(Timeout, x.obj) in Timeouts(sent)
  {
    if Told(Timeout, x.obj) in Timeouts(sent) {
      var i :| 0 <= i < |sent| && Timeouts(sent)[i] == Told(Timeout, x.obj);
    }
    if x in sent {
      var i :| 0 <= i < |sent| && sent[i] == x;
      assert Timeouts(sent)[i] == Told(Timeout, x.obj);
    }
  }

  lemma FiringAdds(trace: seq<Stage>, n: nat, clock: nat -> int, sent: seq<Entry>)
    requires n + 1 < |trace| && Fires(trace[n], clock, sent, trace[n + 1])
    ensures Added(trace, n) == Timeouts(sent)
  {
  }

  lemma TimerHolds(timeout: int, events: seq<Event>, trace: seq<Stage>, n: nat, k: string)
    requires |trace| == |events| + 1 && n < |events| && events[n].Timer? && Step(timeout, trace[n], events[n], trace[n + 1])
    requires Holds(timeout, events, trace, n, k) && Owned(trace[n].heap)
    ensures Holds(timeout, events, trace, n + 1, k)
  {
    var n' := n + 1;
    var sent: seq<Entry> :| Fires(trace[n], events[n].clock, sent, trace[n']);
    FiringAdds(trace, n, events[n].clock, sent);
    forall i: nat
      ensures Pending(timeout, events, trace, n', k, i) <==> Pending(timeout, events, trace, n, k, i) && k !in Ids(sent)
    {
      PendingNext(timeout, events, trace, n, k, i);
      if Pending(timeout, events, trace, n, k, i) {
        ToldNow(trace[n], events[n].clock, sent, trace[n'], EntryOf(timeout, events[i]));
      }
    }
    if k in trace[n'].heap {
      var i: nat :| Pending(timeout, events, trace, n, k, i);
      assert Pending(timeout, events, trace, n', k, i);
    }
  }

  lemma ToldNow(s: Stage, clock: nat -> int, sent: seq<Entry>, s': Stage, x: Entry)
    requires Owned(s.heap) && Fires(s, clock, sent, s') && x.id in s.heap && s.heap[x.id] == x
    ensures Told(Timeout, x.obj) in Timeouts(sent) <==> x.id in Ids(sent)
  {
    ToldInBatch(sent, x);
    if x.id in Ids(sent) {
      var p :| 0 <= p < |sent| && sent[p].id == x.id;
      assert sent[p] == x;
    }
  }

  lemma StepHolds(timeout: int, events: seq<Event>, trace: seq<Stage>, n: nat, k: string)
    requires |trace| == |events| + 1 && n < |events| && Step(timeout, trace[n], events[n], trace[n + 1])
    requires Holds(timeout, events, trace, n, k) && Owned(trace[n].heap)
    ensures Holds(timeout, events, trace, n + 1, k)
  {
    if events[n].Update? {
      UpdateHolds(timeout, events, trace, n, k);
    } else {
      TimerHolds(timeout, events, trace, n, k);
    }
  }

  lemma HoldsNothing(timeout: int, events: seq<Event>, trace: seq<Stage>, k: string)
    requires |trace| == |events| + 1 && trace[0] == START
    ensures Holds(timeout, events, trace, 0, k)
  {
  }

  /** In every run the deadline held for a track is that of its newest accepted update, until its timeout is told. */
  lemma {:induction false} HoldsNewest(timeout: int, events: seq<Event>, trace: seq<Stage>, n: nat, k: string)
    requires IsRun(timeout, events, trace) && n <= |events|
    ensures Holds(timeout, events, trace, n, k)
  {
    if n == 0 {
      HoldsNothing(timeout, events, trace, k);
    } else {
      HoldsNewest(timeout, events, trace, n - 1, k);
      TrackedAlways(timeout, events, trace, n - 1);
      StepHolds(timeout, events, trace, n - 1, k);
    }
  }

  /** Number `p` of the timeouts told by a timer event is of a track that is pending and due when the clock is read for it. */
  ghost predicate DueAt(timeout: int, events: seq<Event>, trace: seq<Stage>, n: nat, k: string, p: nat)
    requires n < |events| && |trace| == |events| + 1 && events[n].Timer?
  {
    && p < |Added(trace, n)| && Added(trace, n)[p].Told? && Added(trace, n)[p].track.id == k
    && exists i: nat :: Pending(timeout, events, trace, n, k, i) && Added(trace, n)[p] == Told(Timeout, events[i].track.value)
                        && Deadline(events[i].track.value.targets, timeout) < events[n].clock(p)
  }

  /**
   In every run each update is answered, by a timeout if it is timed out on
   arrival and as it came otherwise.  A timer event tells the timeouts of
   tracks that are pending and due, each once; and of all that are due when
   the clock is read for the last time.
   */
  lemma AnswersUpdates(timeout: int, events: seq<Event>, trace: seq<Stage>, n: nat)
    requires IsRun(timeout, events, trace) && n < |events| && events[n].Update?
    ensures Readings(events[n])
    ensures trace[n + 1].log == trace[n].log + [if events[n].track.None? then Bare
                                                else Told(if Refuses(timeout, events[n].track.value, events[n].nows) then Timeout
                                                          else events[n].status, events[n].track.value)]
  {
    assert Step(timeout, trace[n], events[n], trace[n + 1]);
  }

  lemma AnswersTimer(timeout: int, events: seq<Event>, trace: seq<Stage>, n: nat)
    requires IsRun(timeout, events, trace) && n < |events| && events[n].Timer?
    ensures trace[n].log <= trace[n + 1].log
    ensures forall p: nat :: p < |Added(trace, n)| ==> Added(trace, n)[p].Told? && DueAt(timeout, events, trace, n, Added(trace, n)[p].track.id, p)
    ensures forall p, q :: 0 <= p < q < |Added(trace, n)| ==> Added(trace, n)[p] != Added(trace, n)[q]
    ensures forall k: string, i: nat ::
              Pending(timeout, events, trace, n, k, i) &&
              Deadline(events[i].track.value.targets, timeout) < events[n].clock(|Added(trace, n)|) ==>
                Told(Timeout, events[i].track.value) in Added(trace, n)
  {
    assert Step(timeout, trace[n], events[n], trace[n + 1]);
    var sent: seq<Entry> :| Fires(trace[n], events[n].clock, sent, trace[n + 1]);
    FiringAdds(trace, n, events[n].clock, sent);
    TrackedAlways(timeout, events, trace, n);
    forall p: nat | p < |sent| ensures DueAt(timeout, events, trace, n, sent[p].id, p) {
      HoldsNewest(timeout, events, trace, n, sent[p].id);
    }
    forall k: string, i: nat | Pending(timeout, events, trace, n, k, i) &&
                               Deadline(events[i].track.value.targets, timeout) < events[n].clock(|sent|)
      ensures Told(Timeout, events[i].track.value) in Timeouts(sent)
    {
      HoldsNewest(timeout, events, trace, n, k);
      DueIsSent(trace[n], events[n].clock, sent, trace[n + 1], k);
      ToldInBatch(sent, trace[n].heap[k]);
    }
  }

  lemma DueIsSent(s: Stage, clock: nat -> int, sent: seq<Entry>, s': Stage, k: string)
    requires Fires(s, clock, sent, s') && k in s.heap && s.heap[k].deadline < clock(|sent|)
    ensures s.heap[k] in sent
  {
    assert k !in s'.heap;
    assert k in Ids(sent);
    var p :| 0 <= p < |sent| && sent[p].id == k;
  }
}
