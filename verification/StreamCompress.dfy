/**
 The stream compressor: it takes tracks as fast as they come and keeps only
 the latest of each one while the output is backed up.
 */
module StreamCompress {
  import opened Common

  datatype Track = Track(id: string, data: string)

  /** What one round of the loop meets: an arrival, which the output takes at once or not, or room in the output. */
  datatype Choice = Arrives(track: Option<Track>, ready: bool) | OutputFrees

  /** The tracks with one identifier. */
  function Of(log: seq<Option<Track>>, id: string): (ts: seq<Track>) {
    if log == [] then []
    else
      var last := log[|log| - 1];
      Of(log[..|log| - 1], id) + if last.Some? && last.value.id == id then [last.value] else []
  }

  function Arrivals(choices: seq<Choice>): (ts: seq<Option<Track>>) {
    if choices == [] then []
    else
      var last := choices[|choices| - 1];
      Arrivals(choices[..|choices| - 1]) + if last.Arrives? then [last.track] else []
  }

  /** How many times in a row the output has had room at the end. */
  function RoomAtEnd(choices: seq<Choice>): (n: nat) {
    if choices == [] || !choices[|choices| - 1].OutputFrees? then 0 else 1 + RoomAtEnd(choices[..|choices| - 1])
  }

  lemma ChoicesStep(choices: seq<Choice>, i: nat)
    requires i < |choices|
    ensures Arrivals(choices[..i + 1]) == Arrivals(choices[..i]) + if choices[i].Arrives? then [choices[i].track] else []
    ensures RoomAtEnd(choices[..i + 1]) == if choices[i].OutputFrees? then 1 + RoomAtEnd(choices[..i]) else 0
  {
    assert choices[..i + 1][..i] == choices[..i];
  }

  lemma OfStep(log: seq<Option<Track>>, t: Option<Track>, id: string)
    ensures Of(log + [t], id) == Of(log, id) + if t.Some? && t.value.id == id then [t.value] else []
  {
    assert (log + [t])[..|log|] == log;
  }

  /** `a` is `b` with some elements left out. */
  ghost predicate Subsequence<T>(a: seq<T>, b: seq<T>) {
    a == [] ||
    (b != [] &&
     ((a[|a| - 1] == b[|b| - 1] && Subsequence(a[..|a| - 1], b[..|b| - 1])) || Subsequence(a, b[..|b| - 1])))
  }

  lemma SubsequenceGrows<T>(a: seq<T>, b: seq<T>, x: T)
    requires Subsequence(a, b)
    ensures Subsequence(a + [x], b + [x])
  {
    assert (a + [x])[..|a|] == a && (b + [x])[..|b|] == b;
  }

  lemma {:induction false} SubsequenceDropsLast<T>(a: seq<T>, x: T, b: seq<T>)
    requires Subsequence(a + [x], b)
    ensures Subsequence(a, b)
    decreases |b|
  {
    assert (a + [x])[..|a|] == a;
    var init := b[..|b| - 1];
    if Subsequence(a + [x], init) {
      SubsequenceDropsLast(a, x, init);
    }
  }

  /** The track about to be sent and the one waiting behind it, of one identifier. */
  ghost function Pending(toSend: Option<Track>, latest: map<string, Track>, id: string): (ts: seq<Track>) {
    (if toSend.Some? && toSend.value.id == id then [toSend.value] else []) + if id in latest then [latest[id]] else []
  }

  /**
   For one identifier: what was sent and what is pending is what arrived with
   some superseded tracks left out, and ends with the newest one.
   */
  ghost predicate Conflated(arrived: seq<Track>, sent: seq<Track>, pending: seq<Track>) {
    && Subsequence(sent + pending, arrived)
    && (arrived != [] ==> sent + pending != [] && (sent + pending)[|sent + pending| - 1] == arrived[|arrived| - 1])
  }

  /** An arrival supersedes what was waiting, or joins what is pending. */
  lemma ArrivalConflates(arrived: seq<Track>, sent: seq<Track>, pending: seq<Track>, kept: seq<Track>, t: Track)
    requires Conflated(arrived, sent, pending)
    requires pending == kept || (|pending| == |kept| + 1 && pending[..|kept|] == kept)
    ensures Conflated(arrived + [t], sent, kept + [t])
  {
    if pending != kept {
      assert sent + pending == (sent + kept) + [pending[|kept|]];
      SubsequenceDropsLast(sent + kept, pending[|kept|], arrived);
    }
    SubsequenceGrows(sent + kept, arrived, t);
    assert sent + (kept + [t]) == (sent + kept) + [t];
  }

  /** What was sent is what arrived with some tracks left out, and once nothing is pending it is up to date. */
  lemma {:induction false} SentIsSubsequence(arrived: seq<Track>, sent: seq<Track>, pending: seq<Track>)
    requires Conflated(arrived, sent, pending)
    ensures Subsequence(sent, arrived)
    ensures pending == [] && arrived != [] ==> sent != [] && sent[|sent| - 1] == arrived[|arrived| - 1]
    decreases |pending|
  {
    if pending == [] {
      assert sent + pending == sent;
    } else {
      PrefixIsSubsequence(sent, pending, arrived);
    }
  }

  lemma {:induction false} PrefixIsSubsequence(a: seq<Track>, rest: seq<Track>, b: seq<Track>)
    requires Subsequence(a + rest, b)
    ensures Subsequence(a, b)
    decreases |rest|
  {
    if rest == [] {
      assert a + rest == a;
    } else {
      var n := |rest| - 1;
      assert a + rest == (a + rest[..n]) + [rest[n]];
      SubsequenceDropsLast(a + rest[..n], rest[n], b);
      PrefixIsSubsequence(a, rest[..n], b);
    }
  }

  // ---------- runs ----------

  /** What the loop holds and has sent. */
  datatype Queue = Queue(latest: map<string, Track>, order: seq<string>, toSend: Option<Track>, output: seq<Option<Track>>)

  const EMPTY: Queue := Queue(map[], [], None, [])

  /** The first half of a round: with nothing to send, the front of the queue is taken. */
  function Takes(q: Queue): (r: Queue) {
    if q.toSend.None? && q.order != [] && q.order[0] in q.latest
    then q.(latest := q.latest - {q.order[0]}, order := q.order[1..], toSend := Some(q.latest[q.order[0]]))
    else q
  }

  function Appends(q: Queue, track: Option<Track>): (r: Queue) {
    if track.None? then q
    else
      var id := track.value.id;
      q.(latest := q.latest[id := track.value], order := if id in q.latest then q.order else q.order + [id])
  }

  /** The second half: what the loop does with what it meets. */
  function Meets(q: Queue, choice: Choice): (r: Queue) {
    match choice
    case OutputFrees => if q.toSend.Some? then q.(output := q.output + [q.toSend], toSend := None) else q
    case Arrives(track, ready) =>
      if q.toSend.None? && ready then q.(output := q.output + [track]) else Appends(q, track)
  }

  /** The states of a run: at the start of each round and at its end, and in the middle of each. */
  ghost predicate IsRun(choices: seq<Choice>, trace: seq<Queue>, mids: seq<Queue>) {
    && |trace| == |choices| + 1 && |mids| == |choices| && trace[0] == EMPTY
    && forall i :: 0 <= i < |choices| ==> IsRound(trace[i], mids[i], choices[i], trace[i + 1])
  }

  predicate IsRound(q: Queue, mid: Queue, choice: Choice, r: Queue) {
    mid == Takes(q) && r == Meets(mid, choice)
  }

  class LatestTrack {
    var latest: map<string, Track>
    var sendOrder: seq<string>

    /** `sendOrder` lists exactly the waiting identifiers, each once. */
    ghost predicate Valid()
      reads this
    {
      && (forall k :: k in latest ==> latest[k].id == k)
      && (forall k :: k in sendOrder <==> k in latest)
      && (forall i, j :: 0 <= i < j < |sendOrder| ==> sendOrder[i] != sendOrder[j])
    }

    constructor ()
      ensures Valid() && latest == map[] && sendOrder == []
    {
      latest, sendOrder := map[], [];
    }

    method AppendTrack(track: Option<Track>)
      requires Valid()
      modifies this
      ensures Valid()
      ensures latest == if track.None? then old(latest) else old(latest)[track.value.id := track.value]
      ensures sendOrder == old(sendOrder) + if track.Some? && track.value.id !in old(latest) then [track.value.id] else []
    {
      if track.None? {
        return;
      }
      var id := track.value.id;
      if id !in latest {
        sendOrder := sendOrder + [id];
      }
      latest := latest[id := track.value];
    }

    /** Take the first waiting track. */
    method TakeFront() returns (t: Track)
      requires Valid() && sendOrder != []
      modifies this
      ensures Valid() && sendOrder == old(sendOrder)[1..]
      ensures t.id == old(sendOrder)[0] && t.id in old(latest) && t == old(latest)[t.id]
      ensures latest == old(latest) - {t.id}
    {
      var id := sendOrder[0];
      assert forall k :: k in sendOrder[1..] <==> k in sendOrder && k != id;
      sendOrder := sendOrder[1..];
      t := latest[id];
      latest := latest - {id};
    }

    /** One round of the loop. */
    method Round(choice: Choice, sending: Option<Track>) returns (sent: seq<Option<Track>>, toSend: Option<Track>, ghost mid: Queue)
      requires Valid()
      modifies this
      ensures Valid()
      ensures forall output :: IsRound(Queue(old(latest), old(sendOrder), sending, output), mid.(output := output), choice,
                                       Queue(latest, sendOrder, toSend, output + sent))
    {
      sent, toSend := [], sending;
      if toSend.None? && |sendOrder| > 0 {
        var t := TakeFront();
        toSend := Some(t);
      }
      mid := Queue(latest, sendOrder, toSend, []);
      match choice {
        case OutputFrees =>
          if toSend.Some? {
            sent := [toSend];
            toSend := None;
          }
        case Arrives(track, ready) =>
          if toSend.None? && ready {
            sent := [track];
          } else {
            AppendTrack(track);
          }
      }
      assert forall output: seq<Option<Track>> :: output + [] == output;
    }

    /**
     The loop, for any sequence of events it may meet, up to any moment; when
     the input closes, it just ends.  In every run, for every identifier, only
     superseded tracks are left out.
     */
    method Process(choices: seq<Choice>)
      returns (output: seq<Option<Track>>, toSend: Option<Track>, ghost trace: seq<Queue>, ghost mids: seq<Queue>)
      requires Valid() && latest == map[] && sendOrder == []
      modifies this
      ensures Valid()
      ensures IsRun(choices, trace, mids) && trace[|choices|] == Queue(latest, sendOrder, toSend, output)
      ensures AllConflated(Arrivals(choices), output, toSend, latest)
      // with enough room at the end nothing stays pending
      ensures |sendOrder| + One(toSend.Some?) <= Max(0, |Arrivals(choices)| - RoomAtEnd(choices))
    {
      output, toSend, trace, mids := [], None, [EMPTY], [];
      for i := 0 to |choices|
        invariant Valid()
        invariant IsRun(choices[..i], trace, mids) && trace[i] == Queue(latest, sendOrder, toSend, output)
      {
        var sent;
        ghost var mid;
        sent, toSend, mid := Round(choices[i], toSend);
        mids := mids + [mid.(output := output)];
        output := output + sent;
        trace := trace + [Queue(latest, sendOrder, toSend, output)];
        assert IsRound(trace[i], mids[i], choices[i], trace[i + 1]);
      }
      assert choices[..|choices|] == choices;
      ConflatedAlways(choices, trace, mids, |choices|);
    }
  }

  /** The order lists exactly the waiting identifiers, each once. */
  ghost predicate Listed(q: Queue) {
    && (forall id :: id in q.order <==> id in q.latest)
    && (forall m, n :: 0 <= m < n < |q.order| ==> q.order[m] != q.order[n])
    && (forall id :: id in q.latest ==> q.latest[id].id == id)
  }

  lemma TakesListed(q: Queue)
    requires Listed(q)
    ensures Listed(Takes(q))
  {
    if Takes(q) != q {
      assert forall id :: id in q.order[1..] <==> id in q.order && id != q.order[0];
    }
  }

  lemma MeetsListed(q: Queue, choice: Choice)
    requires Listed(q)
    ensures Listed(Meets(q, choice))
  {
    if choice.Arrives? && choice.track.Some? {
      var id := choice.track.value.id;
      assert forall k :: k in q.order + [id] <==> k in q.order || k == id;
    }
  }

  /** For every identifier only superseded tracks are left out. */
  ghost predicate AllConflated(arrived: seq<Option<Track>>, output: seq<Option<Track>>, toSend: Option<Track>, latest: map<string, Track>) {
    forall id :: Conflated(Of(arrived, id), Of(output, id), Pending(toSend, latest, id))
  }

  /** The first waiting track becomes the one to send. */
  lemma FrontMoves(arrived: seq<Option<Track>>, output: seq<Option<Track>>, latest: map<string, Track>, front: string)
    requires AllConflated(arrived, output, None, latest) && front in latest && latest[front].id == front
    ensures AllConflated(arrived, output, Some(latest[front]), latest - {front})
  {
    forall id ensures Conflated(Of(arrived, id), Of(output, id), Pending(Some(latest[front]), latest - {front}, id)) {
      assert Conflated(Of(arrived, id), Of(output, id), Pending(None, latest, id));
      assert Pending(Some(latest[front]), latest - {front}, id) == Pending(None, latest, id);
    }
  }

  /** Sending moves a track from pending to sent. */
  lemma SendingMoves(arrived: seq<Option<Track>>, output: seq<Option<Track>>, t: Track, latest: map<string, Track>)
    requires AllConflated(arrived, output, Some(t), latest)
    ensures AllConflated(arrived, output + [Some(t)], None, latest)
  {
    forall id ensures Conflated(Of(arrived, id), Of(output + [Some(t)], id), Pending(None, latest, id)) {
      assert Conflated(Of(arrived, id), Of(output, id), Pending(Some(t), latest, id));
      OfStep(output, Some(t), id);
      assert Of(output + [Some(t)], id) + Pending(None, latest, id) == Of(output, id) + Pending(Some(t), latest, id);
    }
  }

  /** For one identifier: an arrival goes straight out, or waits in the place of the last one. */
  lemma ArrivalMovesOne(arrived: seq<Option<Track>>, output: seq<Option<Track>>, toSend: Option<Track>,
                        latest: map<string, Track>, track: Option<Track>, id: string)
    requires Conflated(Of(arrived, id), Of(output, id), Pending(toSend, latest, id))
    ensures toSend.None? && id !in latest ==> Conflated(Of(arrived + [track], id), Of(output + [track], id), [])
    ensures track.None? ==> Conflated(Of(arrived + [track], id), Of(output, id), Pending(toSend, latest, id))
    ensures track.Some? ==> Conflated(Of(arrived + [track], id), Of(output, id),
                                      Pending(toSend, latest[track.value.id := track.value], id))
  {
    OfStep(arrived, track, id);
    OfStep(output, track, id);
    var kept := if toSend.Some? && toSend.value.id == id then [toSend.value] else [];
    if track.Some? && track.value.id == id {
      ArrivalConflates(Of(arrived, id), Of(output, id), Pending(toSend, latest, id), kept, track.value);
      assert toSend.None? ==> Of(output + [track], id) + [] == Of(output, id) + (kept + [track.value]);
    } else {
      assert Of(arrived + [track], id) == Of(arrived, id) && Of(output + [track], id) == Of(output, id);
    }
  }

  lemma ArrivalMoves(arrived: seq<Option<Track>>, output: seq<Option<Track>>, toSend: Option<Track>,
                     latest: map<string, Track>, track: Option<Track>)
    requires AllConflated(arrived, output, toSend, latest)
    ensures toSend.None? && latest == map[] ==> AllConflated(arrived + [track], output + [track], None, latest)
    ensures track.None? ==> AllConflated(arrived + [track], output, toSend, latest)
    ensures track.Some? ==> AllConflated(arrived + [track], output, toSend, latest[track.value.id := track.value])
  {
    forall id
      ensures toSend.None? && latest == map[] ==>
                Conflated(Of(arrived + [track], id), Of(output + [track], id), Pending(None, latest, id))
      ensures track.None? ==> Conflated(Of(arrived + [track], id), Of(output, id), Pending(toSend, latest, id))
      ensures track.Some? ==> Conflated(Of(arrived + [track], id), Of(output, id),
                                        Pending(toSend, latest[track.value.id := track.value], id))
    {
      ArrivalMovesOne(arrived, output, toSend, latest, track, id);
    }
  }

  lemma TakesConflates(arrived: seq<Option<Track>>, q: Queue)
    requires Listed(q) && AllConflated(arrived, q.output, q.toSend, q.latest)
    ensures AllConflated(arrived, Takes(q).output, Takes(q).toSend, Takes(q).latest)
  {
    if Takes(q) != q {
      FrontMoves(arrived, q.output, q.latest, q.order[0]);
    }
  }

  lemma MeetsConflates(arrived: seq<Option<Track>>, q: Queue, choice: Choice)
    requires Listed(q) && AllConflated(arrived, q.output, q.toSend, q.latest) && (q.toSend.None? ==> q.order == [])
    ensures var r := Meets(q, choice);
      AllConflated(arrived + if choice.Arrives? then [choice.track] else [], r.output, r.toSend, r.latest)
  {
    match choice
    case OutputFrees =>
      assert arrived + [] == arrived;
      if q.toSend.Some? {
        SendingMoves(arrived, q.output, q.toSend.value, q.latest);
      }
    case Arrives(track, ready) =>
      assert q.toSend.None? ==> q.latest == map[];
      ArrivalMoves(arrived, q.output, q.toSend, q.latest, track);
  }

  /** What is pending, in number. */
  function Load(q: Queue): (n: nat) {
    |q.order| + One(q.toSend.Some?)
  }

  lemma TakesKeepsLoad(q: Queue)
    requires Listed(q)
    ensures Load(Takes(q)) == Load(q) && (Takes(q).toSend.None? ==> Takes(q).order == [])
  {
    assert q.order != [] ==> q.order[0] in q.order;
  }

  /** For every identifier only superseded tracks are left out, and so much is pending at most. */
  ghost predicate Kept(arrived: seq<Option<Track>>, rooms: nat, q: Queue) {
    Listed(q) && AllConflated(arrived, q.output, q.toSend, q.latest) && Load(q) <= Max(0, |arrived| - rooms)
  }

  lemma RoundKeeps(arrived: seq<Option<Track>>, rooms: nat, q: Queue, mid: Queue, choice: Choice, r: Queue)
    requires Kept(arrived, rooms, q) && IsRound(q, mid, choice, r)
    ensures Kept(arrived + if choice.Arrives? then [choice.track] else [], if choice.Arrives? then 0 else rooms + 1, r)
  {
    TakesListed(q);
    TakesConflates(arrived, q);
    TakesKeepsLoad(q);
    MeetsListed(mid, choice);
    MeetsConflates(arrived, mid, choice);
  }

  /** In every run, for every identifier, only superseded tracks are left out; and the queue drains as the output has room. */
  lemma {:induction false} ConflatedAlways(choices: seq<Choice>, trace: seq<Queue>, mids: seq<Queue>, n: nat)
    requires IsRun(choices, trace, mids) && n <= |choices|
    ensures Kept(Arrivals(choices[..n]), RoomAtEnd(choices[..n]), trace[n])
  {
    if n > 0 {
      var i := n - 1;
      ConflatedAlways(choices, trace, mids, i);
      ChoicesStep(choices, i);
      RoundKeeps(Arrivals(choices[..i]), RoomAtEnd(choices[..i]), trace[i], mids[i], choices[i], trace[n]);
    }
  }
}
