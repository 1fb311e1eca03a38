/** What every run of the merge protocol guarantees. */
module MergeGuarantees {
  import opened Tallies
  import opened TrackStore
  import opened TrackMerge
  import opened MergeProtocol

  // ---------- closing down ----------

  lemma SendingIsCounted(cfg: Config, w: World, i: nat)
    requires Inv(cfg, w) && i < |w.streams| && Sending(w.streams[i].phase)
    ensures Serving(w.m) && !w.exited
  {
    NoneLeft(w.streams);
  }

  /** While a stream is switching over, the merger counts it on a channel: the counts cannot both be zero. */
  lemma SwitchingIsCounted(cfg: Config, w: World, i: nat)
    requires Inv(cfg, w) && i < |w.streams|
    requires w.streams[i].phase.Marking? || w.streams[i].phase.Announcing? || w.streams[i].phase.Leaving?
    ensures w.m.backlogCount > 0
    ensures w.streams[i].phase.Leaving? ==> w.m.liveCount > 0
  {
    NoneLeft(w.streams);
  }

  lemma NotServingIsClosed(cfg: Config, w: World)
    requires Inv(cfg, w) && !Serving(w.m)
    ensures w.setupSent && w.joined == |w.streams|
    ensures forall i :: 0 <= i < |w.streams| ==>
                          && w.streams[i].phase.Closed?
                          && From(w.log, i) == Updates(cfg.inputs[i][..End(cfg.inputs[i])])
  {
    NoneLeft(w.streams);
    forall i | 0 <= i < |w.streams|
      ensures w.streams[i].phase.Closed? && From(w.log, i) == Updates(cfg.inputs[i][..End(cfg.inputs[i])])
    {
      assert StreamInv(cfg, w, i);
    }
  }

  /**
   In every interleaving: the merger leaves its loop only after the setup,
   when every stream has closed, and then every update of every input, up to
   where that input closed, has been merged, in the order of that input.  And
   no stream is about to send on any channel once the channels are closed.
   */
  lemma ClosesSafely(cfg: Config, ws: seq<World>, k: nat)
    requires Behaviour(cfg, ws) && k < |ws|
    ensures ws[k].exited ==>
              && ws[k].setupSent && ws[k].joined == |ws[k].streams| == |cfg.inputs|
              && forall i :: 0 <= i < |ws[k].streams| ==>
                               && ws[k].streams[i].phase.Closed?
                               && From(ws[k].log, i) == Updates(cfg.inputs[i][..End(cfg.inputs[i])])
    ensures forall i :: 0 <= i < |ws[k].streams| && Sending(ws[k].streams[i].phase) ==> Serving(ws[k].m) && !ws[k].exited
  {
    InvAlways(cfg, ws, k);
    if ws[k].exited {
      NotServingIsClosed(cfg, ws[k]);
    }
    forall i | 0 <= i < |ws[k].streams| && Sending(ws[k].streams[i].phase) ensures Serving(ws[k].m) && !ws[k].exited {
      SendingIsCounted(cfg, ws[k], i);
    }
  }

  /** At any moment, what the merger has processed of a stream is what the stream read, but for the one it holds. */
  lemma NothingLostOrReordered(cfg: Config, ws: seq<World>, k: nat, i: nat)
    requires Behaviour(cfg, ws) && k < |ws| && i < |cfg.inputs|
    ensures |ws[k].streams| == |cfg.inputs| && ws[k].streams[i].taken <= |cfg.inputs[i]|
    ensures Updates(cfg.inputs[i][..ws[k].streams[i].taken]) ==
            From(ws[k].log, i) + if Holding(ws[k].streams[i].phase) then [ws[k].streams[i].phase.upd] else []
    ensures ws[k].m.tracks == StoredAll(cfg.opts, ws[k].log)
  {
    InvAlways(cfg, ws, k);
    assert StreamInv(cfg, ws[k], i);
    if Holding(ws[k].streams[i].phase) {
      UpdatesStep(cfg.inputs[i], ws[k].streams[i].taken - 1);
    }
  }

  // ---------- progress ----------

  lemma CanCheck(opts: Options, m: Merger) returns (r: Merger)
    ensures Checked(opts, m, r)
  {
    r := m;
    if StartsSending(m) {
      var order := AnyOrder(m.tracks);
      r := m.(streamOut := true,
              out := m.out + (if opts.disabled then [] else AllCurrent(order, m.tracks)) + [MergerLoadDone]);
      assert SentAll(opts, m, r, order);
    }
  }

  lemma StreamCanMove(cfg: Config, w: World, i: nat) returns (a: Action, w': World)
    requires Inv(cfg, w) && CanReceive(w) && i < w.joined && !w.streams[i].phase.Closed?
    ensures Next(cfg, w, a, w') && !a.Tick?
  {
    assert StreamInv(cfg, w, i);
    var s, input := w.streams[i], cfg.inputs[i];
    if Offered(s.phase).Offer? {
      var o := Offered(s.phase);
      var m := CanCheck(cfg.opts, Taken(cfg.opts, w.m, o.ch, o.msg));
      a := HandOver(i);
      w' := w.(m := m, streams := w.streams[i := Stream(o.next, s.taken)],
               log := w.log + if o.msg.Update? then [Entry(i, o.msg.track)] else []);
    } else if s.phase.Marking? {
      a := Mark(i);
      w' := w.(m := w.m.(out := w.m.out + [StreamLoadDone]), streams := w.streams[i := Stream(Announcing, s.taken)]);
    } else {
      a := Read(i);
      var s' := AfterReading(input, s);
      w' := w.(streams := w.streams[i := s']);
    }
  }

  lemma AfterReading(input: seq<Msg>, s: Stream) returns (s': Stream)
    requires Proper(input) && InPlace(input, s) && (s.phase.Loading? || s.phase.Following?)
    ensures Reads(input, s, s')
  {
    var closing := if s.phase.Loading? then LoadingClosing else FollowingClosing;
    if s.taken >= |input| {
      s' := Stream(closing, s.taken);
    } else {
      match input[s.taken]
      case Closing => s' := Stream(closing, s.taken + 1);
      case LoadDone => s' := Stream(Marking, s.taken + 1);
      case Update(upd) => s' := Stream(if s.phase.Loading? then LoadingHold(upd) else FollowingHold(upd), s.taken + 1);
    }
  }

  /** Until the merger has left its loop, some thread can move. */
  lemma NoDeadlock(cfg: Config, w: World) returns (a: Action, w': World)
    requires Inv(cfg, w) && !w.exited
    ensures Next(cfg, w, a, w') && !a.Tick?
  {
    if !Serving(w.m) {
      a, w' := Exit, w.(exited := true);
    } else if w.joined < |w.streams| {
      var m := CanCheck(cfg.opts, Taken(cfg.opts, w.m, Backlog, Starting));
      a, w' := Join, w.(m := m, joined := w.joined + 1, streams := w.streams[w.joined := Stream(Loading, 0)]);
    } else if !w.setupSent {
      var m := CanCheck(cfg.opts, Taken(cfg.opts, w.m, Backlog, SetupDone));
      a, w' := FinishSetup, w.(m := m, setupSent := true);
    } else {
      NoneLeft(w.streams);
      var i :| 0 <= i < |w.streams| && (InBacklog(w.streams[i].phase) || InLive(w.streams[i].phase));
      a, w' := StreamCanMove(cfg, w, i);
    }
  }

  /** How far a phase is from being closed. */
  function PhaseRank(p: Phase): (n: nat) {
    match p
    case NotJoined => 9
    case Loading => 8
    case LoadingHold(_) => 9
    case LoadingClosing => 7
    case Marking => 11
    case Announcing => 10
    case Leaving => 9
    case Following => 8
    case FollowingHold(_) => 9
    case FollowingClosing => 7
    case Closed => 6
  }

  function StreamRank(input: seq<Msg>, s: Stream): (n: nat) {
    4 * (if s.taken <= |input| then |input| - s.taken else 0) + PhaseRank(s.phase)
  }

  function Ranks(inputs: seq<seq<Msg>>, streams: seq<Stream>): (ns: seq<nat>)
    requires |inputs| == |streams|
    ensures |ns| == |streams| && forall i :: 0 <= i < |streams| ==> ns[i] == StreamRank(inputs[i], streams[i])
  {
    seq(|streams|, i requires 0 <= i < |streams| => StreamRank(inputs[i], streams[i]))
  }

  function Rank(cfg: Config, w: World): (n: nat)
    requires |w.streams| == |cfg.inputs|
  {
    Total(Ranks(cfg.inputs, w.streams)) + (if w.setupSent then 0 else 1) + if w.exited then 0 else 1
  }

  lemma ReadCountsDown(input: seq<Msg>, s: Stream, s': Stream)
    requires InPlace(input, s) && Reads(input, s, s')
    ensures StreamRank(input, s') < StreamRank(input, s)
  {
  }

  lemma HandOverCountsDown(p: Phase)
    requires Offered(p).Offer?
    ensures PhaseRank(Offered(p).next) < PhaseRank(p)
  {
  }

  lemma StreamCountsDown(cfg: Config, w: World, w': World, i: nat)
    requires i < |w.streams| == |cfg.inputs| == |w'.streams| && w'.streams == w.streams[i := w'.streams[i]]
    requires w'.setupSent == w.setupSent && w'.exited == w.exited
    requires StreamRank(cfg.inputs[i], w'.streams[i]) < StreamRank(cfg.inputs[i], w.streams[i])
    ensures Rank(cfg, w') < Rank(cfg, w)
  {
    var ns, n := Ranks(cfg.inputs, w.streams), StreamRank(cfg.inputs[i], w'.streams[i]);
    TotalChange(ns, i, n);
    assert Ranks(cfg.inputs, w'.streams) == ns[i := n];
  }

  /** Every step but a tick of the status timer brings the end nearer. */
  lemma StepsCountDown(cfg: Config, w: World, a: Action, w': World)
    requires Inv(cfg, w) && Next(cfg, w, a, w') && !a.Tick?
    ensures |w'.streams| == |cfg.inputs| && Rank(cfg, w') < Rank(cfg, w)
  {
    match a
    case Join =>
      assert StreamInv(cfg, w, w.joined);
      StreamCountsDown(cfg, w, w', w.joined);
    case Read(i) =>
      assert StreamInv(cfg, w, i);
      ReadCountsDown(cfg.inputs[i], w.streams[i], w'.streams[i]);
      StreamCountsDown(cfg, w, w', i);
    case Mark(i) =>
      StreamCountsDown(cfg, w, w', i);
    case HandOver(i) =>
      HandOverCountsDown(w.streams[i].phase);
      StreamCountsDown(cfg, w, w', i);
    case FinishSetup =>
    case Exit =>
  }

  /** A run in which the status timer does not interfere. */
  ghost predicate Tickless(cfg: Config, ws: seq<World>) {
    forall k :: 0 < k < |ws| ==> exists a :: Next(cfg, ws[k - 1], a, ws[k]) && !a.Tick?
  }

  ghost predicate Stuck(cfg: Config, w: World) {
    forall a, w' :: Next(cfg, w, a, w') ==> a.Tick?
  }

  lemma StepCountsDown(cfg: Config, ws: seq<World>, k: nat)
    requires Behaviour(cfg, ws) && Tickless(cfg, ws) && 0 < k < |ws|
    ensures |ws[k - 1].streams| == |ws[k].streams| == |cfg.inputs| && Rank(cfg, ws[k]) < Rank(cfg, ws[k - 1])
  {
    InvAlways(cfg, ws, k - 1);
    var a :| Next(cfg, ws[k - 1], a, ws[k]) && !a.Tick?;
    StepsCountDown(cfg, ws[k - 1], a, ws[k]);
  }

  lemma RunsAreShort(cfg: Config, ws: seq<World>, ranks: seq<nat>)
    requires Behaviour(cfg, ws) && Tickless(cfg, ws)
    requires |ranks| == |ws|
    requires forall k :: 0 <= k < |ws| ==> |ws[k].streams| == |cfg.inputs| && ranks[k] == Rank(cfg, ws[k])
    ensures |ws| <= ranks[0] + 1
  {
    forall k | 0 < k < |ranks| ensures ranks[k] < ranks[k - 1] {
      StepCountsDown(cfg, ws, k);
    }
    CountdownIsShort(ranks, |ranks| - 1);
  }

  lemma StuckIsExited(cfg: Config, w: World)
    requires Inv(cfg, w) && Stuck(cfg, w)
    ensures w.exited
  {
    if !w.exited {
      var a, w' := NoDeadlock(cfg, w);
      assert false;
    }
  }

  /**
   The merger always finishes: runs are bounded in length by the inputs, and
   one that can go no further has ended with the merger closed down.
   */
  lemma AlwaysFinishes(cfg: Config, ws: seq<World>)
    requires Behaviour(cfg, ws) && Tickless(cfg, ws)
    ensures |ws| <= Rank(cfg, Start(cfg)) + 1
    ensures Stuck(cfg, ws[|ws| - 1]) ==> ws[|ws| - 1].exited
  {
    forall k | 0 <= k < |ws| ensures Inv(cfg, ws[k]) {
      InvAlways(cfg, ws, k);
    }
    var ranks: seq<nat> := seq(|ws|, k requires 0 <= k < |ws| => Rank(cfg, ws[k]));
    RunsAreShort(cfg, ws, ranks);
    if Stuck(cfg, ws[|ws| - 1]) {
      StuckIsExited(cfg, ws[|ws| - 1]);
    }
  }

  // ---------- what is sent ----------

  ghost predicate OnlyStreamMarks(out: seq<Out>) {
    forall i :: 0 <= i < |out| ==> out[i].StreamLoadDone?
  }

  ghost predicate NoMergerMark(out: seq<Out>) {
    forall i :: 0 <= i < |out| ==> !out[i].MergerLoadDone?
  }

  /** The merger started to send: all it has stored, each track once, and its marker. */
  ghost predicate Burst(m: Merger, r: Merger) {
    exists order :: IsOrder(order, r.tracks) && r.out == m.out + AllCurrent(order, r.tracks) + [MergerLoadDone]
  }

  /** What any step does to the output of a merger of histories. */
  ghost predicate OutStep(m: Merger, r: Merger) {
    && m.out <= r.out
    && (m.streamOut ==> r.streamOut && NoMergerMark(r.out[|m.out|..]))
    && (!r.streamOut ==> OnlyStreamMarks(r.out[|m.out|..]))
    && (!m.streamOut && r.streamOut ==> r.setupFinished && r.backlogCount == 0 && Burst(m, r))
  }

  lemma CheckedOut(opts: Options, m: Merger, r: Merger)
    requires !opts.disabled && Checked(opts, m, r)
    ensures OutStep(m, r)
  {
    if StartsSending(m) {
      var order :| SentAll(opts, m, r, order);
      assert IsOrder(order, r.tracks) && r.out == m.out + AllCurrent(order, r.tracks) + [MergerLoadDone];
    }
  }

  lemma ReceivedOut(opts: Options, m: Merger, ch: Channel, msg: Msg, r: Merger)
    requires !opts.disabled && Received(opts, m, ch, msg, r)
    ensures OutStep(m, r)
  {
    var t := Taken(opts, m, ch, msg);
    CheckedOut(opts, t, r);
    if m.streamOut {
      assert r == t;
    } else {
      assert t.out == m.out;
    }
  }

  lemma StepOut(cfg: Config, w: World, w': World)
    requires !cfg.opts.disabled && Step(cfg, w, w')
    ensures OutStep(w.m, w'.m)
  {
    var a :| Next(cfg, w, a, w');
    match a
    case Join => ReceivedOut(cfg.opts, w.m, Backlog, Starting, w'.m);
    case FinishSetup => ReceivedOut(cfg.opts, w.m, Backlog, SetupDone, w'.m);
    case HandOver(i) => ReceivedOut(cfg.opts, w.m, Offered(w.streams[i].phase).ch, Offered(w.streams[i].phase).msg, w'.m);
    case Tick => CheckedOut(cfg.opts, w.m, w'.m);
    case Mark(i) =>
    case Read(i) =>
    case Exit =>
  }

  /** The output side of a run that starts silent. */
  ghost predicate OutRun(ms: seq<Merger>) {
    && ms != [] && !ms[0].streamOut && ms[0].out == []
    && forall k :: 0 < k < |ms| ==> OutStep(ms[k - 1], ms[k])
  }

  ghost function Mergers(ws: seq<World>): (ms: seq<Merger>)
    ensures |ms| == |ws| && forall k :: 0 <= k < |ms| ==> ms[k] == ws[k].m
  {
    seq(|ws|, k requires 0 <= k < |ws| => ws[k].m)
  }

  lemma BehaviourOut(cfg: Config, ws: seq<World>)
    requires Behaviour(cfg, ws) && !cfg.opts.disabled && cfg.opts.historical
    ensures OutRun(Mergers(ws))
  {
    forall k | 0 < k < |ws| ensures OutStep(ws[k - 1].m, ws[k].m) {
      StepOut(cfg, ws[k - 1], ws[k]);
    }
  }

  /** When no stream is left in its backlog, all the backlogs are merged. */
  lemma BacklogsMerged(cfg: Config, w: World, i: nat)
    requires Inv(cfg, w) && w.m.setupFinished && w.m.backlogCount == 0 && i < |w.streams|
    ensures Updates(cfg.inputs[i][..Cut(cfg.inputs[i])]) <= From(w.log, i)
  {
    NoneLeft(w.streams);
    assert StreamInv(cfg, w, i);
    UpdatesPrefix(cfg.inputs[i], Cut(cfg.inputs[i]), Handed(w.streams[i]));
  }

  /** Before it starts to send, the merger puts nothing out; only the streams' own markers pass. */
  lemma {:induction false} SilentBefore(ms: seq<Merger>, k: nat)
    requires OutRun(ms) && k < |ms| && !ms[k].streamOut
    ensures OnlyStreamMarks(ms[k].out)
    ensures forall j :: 0 <= j <= k ==> !ms[j].streamOut
  {
    if k > 0 {
      assert OutStep(ms[k - 1], ms[k]);
      SilentBefore(ms, k - 1);
      assert ms[k].out == ms[k - 1].out + ms[k].out[|ms[k - 1].out|..];
    }
  }

  lemma NoMergerMarkJoins(early: seq<Out>, mid: seq<Out>, late: seq<Out>)
    requires early <= mid <= late && NoMergerMark(mid[|early|..]) && NoMergerMark(late[|mid|..])
    ensures NoMergerMark(late[|early|..])
  {
    assert late[|early|..] == mid[|early|..] + late[|mid|..];
  }

  lemma {:induction false} SendingStays(ms: seq<Merger>, j: nat, k: nat)
    requires OutRun(ms) && j <= k < |ms| && ms[j].streamOut
    ensures ms[k].streamOut && ms[j].out <= ms[k].out && NoMergerMark(ms[k].out[|ms[j].out|..])
    decreases k
  {
    if j < k {
      SendingStays(ms, j, k - 1);
      assert OutStep(ms[k - 1], ms[k]);
      NoMergerMarkJoins(ms[j].out, ms[k - 1].out, ms[k].out);
    }
  }

  /** In a run that has started to send, the step at which it did. */
  lemma BurstStep(ms: seq<Merger>, k: nat) returns (j: nat)
    requires OutRun(ms) && k < |ms| && ms[k].streamOut
    ensures 0 < j <= k && ms[j].streamOut && ms[j].setupFinished && ms[j].backlogCount == 0 && Burst(ms[j - 1], ms[j])
    ensures forall i :: 0 <= i < j ==> !ms[i].streamOut && OnlyStreamMarks(ms[i].out)
    ensures forall i :: j <= i < |ms| ==>
                          ms[i].streamOut && ms[j].out <= ms[i].out && NoMergerMark(ms[i].out[|ms[j].out|..])
  {
    j := k;
    while ms[j - 1].streamOut
      invariant 0 < j <= k && ms[j].streamOut
      decreases j
    {
      j := j - 1;
    }
    assert OutStep(ms[j - 1], ms[j]);
    SilentBefore(ms, j - 1);
    forall i | 0 <= i < j ensures OnlyStreamMarks(ms[i].out) {
      SilentBefore(ms, i);
    }
    forall i | j <= i < |ms| ensures ms[i].streamOut && ms[j].out <= ms[i].out && NoMergerMark(ms[i].out[|ms[j].out|..]) {
      SendingStays(ms, j, i);
    }
  }

  /**
   Histories are sent in one burst.  In every run in which the merger has
   started to send, there is one step at which it did: before it the output
   holds no track, at it all backlogs of all streams are merged and every
   stored track is sent exactly once, followed by the merger's marker, and
   after it that marker never comes again.
   */
  lemma StartsToSendOnce(cfg: Config, ws: seq<World>, k: nat) returns (j: nat)
    requires Behaviour(cfg, ws) && !cfg.opts.disabled && cfg.opts.historical
    requires k < |ws| && ws[k].m.streamOut
    ensures 0 < j <= k
    ensures forall i :: 0 <= i < j ==> !ws[i].m.streamOut && OnlyStreamMarks(ws[i].m.out)
    ensures |ws[j].streams| == |cfg.inputs|
    ensures ws[j].m.setupFinished && ws[j].joined == |cfg.inputs|
    ensures forall i :: 0 <= i < |cfg.inputs| ==> Updates(cfg.inputs[i][..Cut(cfg.inputs[i])]) <= From(ws[j].log, i)
    ensures ws[j].m.tracks == StoredAll(cfg.opts, ws[j].log) && Burst(ws[j - 1].m, ws[j].m)
    ensures forall i :: j <= i < |ws| ==>
                          ws[i].m.streamOut && ws[j].m.out <= ws[i].m.out && NoMergerMark(ws[i].m.out[|ws[j].m.out|..])
  {
    BehaviourOut(cfg, ws);
    j := BurstStep(Mergers(ws), k);
    InvAlways(cfg, ws, j);
    forall i | 0 <= i < |cfg.inputs| ensures Updates(cfg.inputs[i][..Cut(cfg.inputs[i])]) <= From(ws[j].log, i) {
      BacklogsMerged(cfg, ws[j], i);
    }
  }

  // ---------- a finished run has sent ----------

  lemma CheckedIsSteady(opts: Options, m: Merger, r: Merger)
    requires Checked(opts, m, r)
    ensures !StartsSending(r)
  {
  }

  /** The merger never leaves a step without starting to send when it should. */
  lemma StepIsSteady(cfg: Config, w: World, w': World)
    requires Step(cfg, w, w') && !StartsSending(w.m)
    ensures !StartsSending(w'.m)
  {
    var a :| Next(cfg, w, a, w');
    match a
    case Join => CheckedIsSteady(cfg.opts, Taken(cfg.opts, w.m, Backlog, Starting), w'.m);
    case FinishSetup => CheckedIsSteady(cfg.opts, Taken(cfg.opts, w.m, Backlog, SetupDone), w'.m);
    case HandOver(i) =>
      CheckedIsSteady(cfg.opts, Taken(cfg.opts, w.m, Offered(w.streams[i].phase).ch, Offered(w.streams[i].phase).msg), w'.m);
    case Tick => CheckedIsSteady(cfg.opts, w.m, w'.m);
    case Mark(i) =>
    case Read(i) =>
    case Exit =>
  }

  lemma {:induction false} SteadyAlways(cfg: Config, ws: seq<World>, k: nat)
    requires Behaviour(cfg, ws) && k < |ws|
    ensures !StartsSending(ws[k].m)
  {
    if k > 0 {
      SteadyAlways(cfg, ws, k - 1);
      StepIsSteady(cfg, ws[k - 1], ws[k]);
    }
  }

  /** A merger that has left its loop has started to send. */
  lemma FinishedHasSent(cfg: Config, ws: seq<World>, k: nat)
    requires Behaviour(cfg, ws) && k < |ws| && ws[k].exited
    ensures ws[k].m.streamOut
  {
    SteadyAlways(cfg, ws, k);
    InvAlways(cfg, ws, k);
  }

  /** The merger's marker is at `p` and nowhere else. */
  ghost predicate OneMark(out: seq<Out>, p: nat) {
    && p < |out| && out[p].MergerLoadDone?
    && forall q :: 0 <= q < |out| && q != p ==> !out[q].MergerLoadDone?
  }

  lemma BurstHasOneMark(m: Merger, r: Merger, late: seq<Out>)
    requires Burst(m, r) && OnlyStreamMarks(m.out) && r.out <= late && NoMergerMark(late[|r.out|..])
    ensures r.out != [] && OneMark(late, |r.out| - 1)
  {
    var order :| IsOrder(order, r.tracks) && r.out == m.out + AllCurrent(order, r.tracks) + [MergerLoadDone];
    forall q | 0 <= q < |late| && q != |r.out| - 1 ensures !late[q].MergerLoadDone? {
      if q < |r.out| {
        assert late[q] == r.out[q];
      } else {
        assert late[q] == late[|r.out|..][q - |r.out|];
      }
    }
  }

  /**
   A merger of histories that has finished has sent exactly one burst: before
   step `j` no track is out; at it all backlogs are merged, every stored track
   is sent once and then the marker, which is the only one of the whole run.
   */
  lemma FinishedHasSentOnce(cfg: Config, ws: seq<World>, k: nat) returns (j: nat)
    requires Behaviour(cfg, ws) && !cfg.opts.disabled && cfg.opts.historical
    requires k < |ws| && ws[k].exited
    ensures 0 < j <= k && OnlyStreamMarks(ws[j - 1].m.out) && Burst(ws[j - 1].m, ws[j].m)
    ensures |ws[j].streams| == |cfg.inputs| && ws[j].m.tracks == StoredAll(cfg.opts, ws[j].log)
    ensures forall i :: 0 <= i < |cfg.inputs| ==> Updates(cfg.inputs[i][..Cut(cfg.inputs[i])]) <= From(ws[j].log, i)
    ensures ws[j].m.out != [] && ws[j].m.out <= ws[k].m.out && OneMark(ws[k].m.out, |ws[j].m.out| - 1)
  {
    FinishedHasSent(cfg, ws, k);
    j := StartsToSendOnce(cfg, ws, k);
    BurstHasOneMark(ws[j - 1].m, ws[j].m, ws[k].m.out);
  }

  /** So every run of a merger of histories that can go no further has had its one burst and its one marker. */
  lemma AlwaysSends(cfg: Config, ws: seq<World>) returns (j: nat)
    requires Behaviour(cfg, ws) && Tickless(cfg, ws) && !cfg.opts.disabled && cfg.opts.historical
    requires Stuck(cfg, ws[|ws| - 1])
    ensures 0 < j < |ws| && Burst(ws[j - 1].m, ws[j].m)
    ensures ws[j].m.out != [] && ws[j].m.out <= ws[|ws| - 1].m.out && OneMark(ws[|ws| - 1].m.out, |ws[j].m.out| - 1)
  {
    AlwaysFinishes(cfg, ws);
    j := FinishedHasSentOnce(cfg, ws, |ws| - 1);
  }

  lemma StepForward(cfg: Config, w: World, w': World)
    requires !cfg.opts.historical && Step(cfg, w, w') && w.m.streamOut && Forward(cfg.opts, w.m.tracks, w.m.out)
    ensures w'.m.streamOut && Forward(cfg.opts, w'.m.tracks, w'.m.out)
  {
    var a :| Next(cfg, w, a, w');
    if a.HandOver? && Offered(w.streams[a.i].phase).msg.Update? {
      ProcessedKeepsForward(cfg.opts, w.m, Offered(w.streams[a.i].phase).msg.track);
    } else if a.Mark? {
      assert w'.m.tracks == w.m.tracks && w'.m.out == w.m.out + [StreamLoadDone];
    } else {
      assert w'.m.tracks == w.m.tracks && w'.m.out == w.m.out;
    }
  }

  /** Without histories, in every interleaving: the times sent for one track never go back. */
  lemma {:induction false} NeverGoesBack(cfg: Config, ws: seq<World>, k: nat)
    requires Behaviour(cfg, ws) && !cfg.opts.historical && k < |ws|
    ensures ws[k].m.streamOut && Forward(cfg.opts, ws[k].m.tracks, ws[k].m.out)
  {
    if k > 0 {
      NeverGoesBack(cfg, ws, k - 1);
      StepForward(cfg, ws[k - 1], ws[k]);
    }
  }
}
