/**
 The protocol between the track merger and its streams.

 Each stream thread reads its input and hands it to the merger on one of two
 unbuffered channels: first on `backlog`, and once its initial load is done on
 `live`.  The merger counts the streams on either channel, starts sending when
 all backlogs are in, and leaves its loop and closes its channels when setup is
 finished and no stream is left.  A hand-over on an unbuffered channel is one
 step of both threads; everything else interleaves freely.  Nobody cancels.
 */
module MergeProtocol {
  import opened Common
  import opened Tallies
  import opened TrackStore
  import opened TrackMerge

  /** Where a stream thread stands; the Hold phases carry an update read but not yet handed over. */
  datatype Phase =
    | NotJoined
    | Loading
    | LoadingHold(upd: Option<Track>)
    | LoadingClosing
    | Marking          // read its load-done, about to send it on the output channel
    | Announcing       // about to announce itself on the live channel
    | Leaving          // about to leave the backlog channel
    | Following
    | FollowingHold(upd: Option<Track>)
    | FollowingClosing
    | Closed

  datatype Stream = Stream(phase: Phase, taken: nat)

  /** An update that went through the merger, with the stream it came from. */
  datatype Entry = Entry(stream: nat, upd: Option<Track>)

  datatype Config = Config(opts: Options, inputs: seq<seq<Msg>>)

  /**
   The merger, how many streams were added, whether the end of the setup was
   announced, the stream threads, whether the merger has left its loop and
   closed its channels, and every object it processed.
   */
  datatype World = World(m: Merger, joined: nat, setupSent: bool, streams: seq<Stream>, exited: bool, log: seq<Entry>)

  // ---------- inputs ----------

  predicate IsUpdate(msg: Msg) {
    msg.Update?
  }

  predicate IsOpen(msg: Msg) {
    !msg.Closing?
  }

  /** Position of the first message of an input that is no update. */
  function Cut(input: seq<Msg>): (k: nat)
    ensures k <= |input| && (forall j :: 0 <= j < k ==> input[j].Update?) && (k < |input| ==> !input[k].Update?)
  {
    While(input, IsUpdate)
  }

  /** Position of the first closing message of an input. */
  function End(input: seq<Msg>): (k: nat)
    ensures k <= |input| && (forall j :: 0 <= j < k ==> !input[j].Closing?) && (k < |input| ==> input[k].Closing?)
  {
    While(input, IsOpen)
  }

  /** An input carries updates of named tracks, at most one load-done before it closes, and no control messages. */
  ghost predicate Proper(input: seq<Msg>) {
    && (forall k :: 0 <= k < |input| ==> !input[k].Starting? && !input[k].SetupDone?)
    && (forall k :: 0 <= k < |input| && input[k].Update? && input[k].track.Some? ==> Mergeable(input[k].track.value))
    && (forall j, k :: 0 <= j < k < End(input) ==> !(input[j].LoadDone? && input[k].LoadDone?))
  }

  /** The updates among some messages. */
  function Updates(input: seq<Msg>): (us: seq<Option<Track>>) {
    if input == [] then []
    else
      var last := input[|input| - 1];
      Updates(input[..|input| - 1]) + if last.Update? then [last.track] else []
  }

  /** The updates of one stream that went through the merger. */
  function From(log: seq<Entry>, i: nat): (us: seq<Option<Track>>) {
    if log == [] then []
    else
      var last := log[|log| - 1];
      From(log[..|log| - 1], i) + if last.stream == i then [last.upd] else []
  }

  /** The tracks the merger has after processing these objects. */
  function StoredAll(opts: Options, log: seq<Entry>): (tracks: map<string, Track>) {
    if log == [] then map[]
    else
      var tracks := StoredAll(opts, log[..|log| - 1]);
      var upd := log[|log| - 1].upd;
      if upd.None? then tracks else Stored(opts, tracks, upd.value)
  }

  lemma UpdatesStep(input: seq<Msg>, k: nat)
    requires k < |input|
    ensures Updates(input[..k + 1]) == Updates(input[..k]) + if input[k].Update? then [input[k].track] else []
  {
    assert input[..k + 1][..k] == input[..k];
  }

  lemma {:induction false} UpdatesPrefix(input: seq<Msg>, j: nat, k: nat)
    requires j <= k <= |input|
    ensures Updates(input[..j]) <= Updates(input[..k])
    decreases k
  {
    if j < k {
      UpdatesPrefix(input, j, k - 1);
      UpdatesStep(input, k - 1);
    }
  }

  lemma FromStep(log: seq<Entry>, e: Entry, i: nat)
    ensures From(log + [e], i) == From(log, i) + if e.stream == i then [e.upd] else []
  {
    assert (log + [e])[..|log|] == log;
  }

  lemma StoredStep(opts: Options, log: seq<Entry>, e: Entry, m: Merger, ch: Channel)
    requires m.tracks == StoredAll(opts, log)
    ensures Taken(opts, m, ch, Update(e.upd)).tracks == StoredAll(opts, log + [e])
  {
    assert (log + [e])[..|log|] == log;
  }

  // ---------- counting streams ----------

  predicate InBacklog(p: Phase) {
    p.Loading? || p.LoadingHold? || p.LoadingClosing? || p.Marking? || p.Announcing? || p.Leaving?
  }

  predicate InLive(p: Phase) {
    p.Leaving? || p.Following? || p.FollowingHold? || p.FollowingClosing?
  }

  predicate Loads(s: Stream) {
    InBacklog(s.phase)
  }

  predicate Follows(s: Stream) {
    InLive(s.phase)
  }

  lemma CountChange(streams: seq<Stream>, i: nat, s: Stream)
    requires i < |streams|
    ensures HowMany(streams[i := s], Loads) == HowMany(streams, Loads) - One(InBacklog(streams[i].phase)) + One(InBacklog(s.phase))
    ensures HowMany(streams[i := s], Follows) == HowMany(streams, Follows) - One(InLive(streams[i].phase)) + One(InLive(s.phase))
  {
    HowManyChange(streams, Loads, i, s);
    HowManyChange(streams, Follows, i, s);
  }

  lemma NoneLeft(streams: seq<Stream>)
    ensures HowMany(streams, Loads) == 0 <==> forall i :: 0 <= i < |streams| ==> !InBacklog(streams[i].phase)
    ensures HowMany(streams, Follows) == 0 <==> forall i :: 0 <= i < |streams| ==> !InLive(streams[i].phase)
  {
    HowManyNone(streams, Loads);
    HowManyNone(streams, Follows);
    assert forall i :: 0 <= i < |streams| ==> Loads(streams[i]) == InBacklog(streams[i].phase);
    assert forall i :: 0 <= i < |streams| ==> Follows(streams[i]) == InLive(streams[i].phase);
  }

  // ---------- steps ----------

  /** What a stream is about to hand over: the channel, the message, and the phase it is in then. */
  datatype Offer = Nothing | Offer(ch: Channel, msg: Msg, next: Phase)

  function Offered(p: Phase): (o: Offer) {
    match p
    case LoadingHold(upd) => Offer(Backlog, Update(upd), Loading)
    case LoadingClosing => Offer(Backlog, Closing, Closed)
    case Announcing => Offer(Live, Starting, Leaving)
    case Leaving => Offer(Backlog, LoadDone, Following)
    case FollowingHold(upd) => Offer(Live, Update(upd), Following)
    case FollowingClosing => Offer(Live, Closing, Closed)
    case _ => Nothing
  }

  /** A stream about to send on any channel. */
  predicate Sending(p: Phase) {
    p.Marking? || Offered(p).Offer?
  }

  /** A stream reads its input. */
  ghost predicate Reads(input: seq<Msg>, s: Stream, s': Stream) {
    && (s.phase.Loading? || s.phase.Following?)
    && if s.taken >= |input| then
         s' == Stream(if s.phase.Loading? then LoadingClosing else FollowingClosing, s.taken)
       else
         match input[s.taken]
         case Closing => s' == Stream(if s.phase.Loading? then LoadingClosing else FollowingClosing, s.taken + 1)
         case LoadDone => s.phase.Loading? && s' == Stream(Marking, s.taken + 1)
         case Update(upd) => s' == Stream(if s.phase.Loading? then LoadingHold(upd) else FollowingHold(upd), s.taken + 1)
         case _ => false
  }

  datatype Action = Join | FinishSetup | Read(i: nat) | Mark(i: nat) | HandOver(i: nat) | Tick | Exit

  ghost predicate CanReceive(w: World) {
    !w.exited && Serving(w.m)
  }

  ghost predicate Next(cfg: Config, w: World, a: Action, w': World) {
    match a
    case Join =>
      && w.joined < |w.streams| && !w.setupSent && CanReceive(w)
      && Received(cfg.opts, w.m, Backlog, Starting, w'.m)
      && w' == w.(m := w'.m, joined := w.joined + 1, streams := w.streams[w.joined := Stream(Loading, 0)])
    case FinishSetup =>
      && w.joined == |w.streams| && !w.setupSent && CanReceive(w)
      && Received(cfg.opts, w.m, Backlog, SetupDone, w'.m)
      && w' == w.(m := w'.m, setupSent := true)
    case Read(i) =>
      && i < |w.streams| == |cfg.inputs|
      && exists s :: Reads(cfg.inputs[i], w.streams[i], s) && w' == w.(streams := w.streams[i := s])
    case Mark(i) =>
      && i < |w.streams| && w.streams[i].phase.Marking?
      && w' == w.(m := w.m.(out := w.m.out + [StreamLoadDone]),
                  streams := w.streams[i := Stream(Announcing, w.streams[i].taken)])
    case HandOver(i) =>
      && i < |w.streams| && Offered(w.streams[i].phase).Offer? && CanReceive(w)
      && var o := Offered(w.streams[i].phase);
         && Received(cfg.opts, w.m, o.ch, o.msg, w'.m)
         && w' == w.(m := w'.m, streams := w.streams[i := Stream(o.next, w.streams[i].taken)],
                     log := w.log + if o.msg.Update? then [Entry(i, o.msg.track)] else [])
    case Tick =>
      CanReceive(w) && Checked(cfg.opts, w.m, w'.m) && w' == w.(m := w'.m)
    case Exit =>
      !w.exited && !Serving(w.m) && w' == w.(exited := true)
  }

  ghost predicate Step(cfg: Config, w: World, w': World) {
    exists a :: Next(cfg, w, a, w')
  }

  function Start(cfg: Config): (w: World) {
    World(Initial(cfg.opts), 0, false, seq(|cfg.inputs|, _ => Stream(NotJoined, 0)), false, [])
  }

  /** A run of the protocol. */
  ghost predicate Behaviour(cfg: Config, ws: seq<World>) {
    && ws != [] && ws[0] == Start(cfg)
    && (forall i :: 0 <= i < |cfg.inputs| ==> Proper(cfg.inputs[i]))
    && (forall k :: 0 < k < |ws| ==> Step(cfg, ws[k - 1], ws[k]))
  }

  // ---------- the invariant ----------

  predicate Holding(p: Phase) {
    p.LoadingHold? || p.FollowingHold?
  }

  /** How much of its input a stream has handed over. */
  function Handed(s: Stream): (n: nat) {
    if Holding(s.phase) && s.taken > 0 then s.taken - 1 else s.taken
  }

  /** Where a stream stands in its input, given its phase. */
  ghost predicate InPlace(input: seq<Msg>, s: Stream) {
    && s.taken <= |input|
    && match s.phase
       case NotJoined => s.taken == 0
       case Loading => s.taken <= Cut(input)
       case LoadingHold(upd) => 0 < s.taken <= Cut(input) && input[s.taken - 1] == Update(upd)
       case Marking | Announcing | Leaving => s.taken == Cut(input) + 1 && input[Cut(input)].LoadDone?
       case Following => Cut(input) < s.taken <= End(input) && input[Cut(input)].LoadDone?
       case FollowingHold(upd) =>
         Cut(input) + 1 < s.taken <= End(input) && input[s.taken - 1] == Update(upd) && input[Cut(input)].LoadDone?
       case LoadingClosing | FollowingClosing | Closed =>
         Cut(input) <= s.taken && Updates(input[..s.taken]) == Updates(input[..End(input)])
  }

  ghost predicate StreamInv(cfg: Config, w: World, i: nat)
    requires i < |w.streams| == |cfg.inputs|
  {
    && Proper(cfg.inputs[i])
    && (w.streams[i].phase.NotJoined? <==> i >= w.joined)
    && InPlace(cfg.inputs[i], w.streams[i])
    && From(w.log, i) == Updates(cfg.inputs[i][..Handed(w.streams[i])])
  }

  ghost predicate Inv(cfg: Config, w: World) {
    && |w.streams| == |cfg.inputs| && w.joined <= |w.streams|
    && w.m.backlogCount == HowMany(w.streams, Loads)
    && w.m.liveCount == HowMany(w.streams, Follows)
    && w.m.setupFinished == w.setupSent
    && (w.setupSent ==> w.joined == |w.streams|)
    && (w.exited ==> !Serving(w.m))
    && w.m.tracks == StoredAll(cfg.opts, w.log)
    && forall i :: 0 <= i < |w.streams| ==> StreamInv(cfg, w, i)
  }

  /** A hand-over changes counts and tracks as the message says; starting to send changes neither. */
  lemma ReceivedCounts(opts: Options, m: Merger, ch: Channel, msg: Msg, r: Merger)
    requires Received(opts, m, ch, msg, r)
    ensures var t := Taken(opts, m, ch, msg);
            r.backlogCount == t.backlogCount && r.liveCount == t.liveCount && r.setupFinished == t.setupFinished && r.tracks == t.tracks
  {
  }

  lemma ReadKeepsPlace(input: seq<Msg>, s: Stream, s': Stream)
    requires Proper(input) && InPlace(input, s) && Reads(input, s, s')
    ensures InPlace(input, s') && !s'.phase.NotJoined?
    ensures InBacklog(s.phase) == InBacklog(s'.phase) && InLive(s.phase) == InLive(s'.phase)
  {
    if s.taken == |input| || input[s.taken].Closing? {
      assert End(input) == s.taken;
      if s.taken < |input| {
        UpdatesStep(input, s.taken);
      }
    }
  }

  lemma ReadHandsNothing(input: seq<Msg>, s: Stream, s': Stream)
    requires InPlace(input, s) && Reads(input, s, s') && s'.taken <= |input|
    ensures Updates(input[..Handed(s')]) == Updates(input[..Handed(s)])
  {
    if s.taken < |input| {
      UpdatesStep(input, s.taken);
    }
  }

  lemma InitialInv(cfg: Config)
    requires forall i :: 0 <= i < |cfg.inputs| ==> Proper(cfg.inputs[i])
    ensures Inv(cfg, Start(cfg))
  {
    var w := Start(cfg);
    NoneLeft(w.streams);
  }

  lemma ReadKeepsStreams(cfg: Config, w: World, i: nat, s: Stream, w': World, j: nat)
    requires Inv(cfg, w) && i < |w.streams| && j < |w.streams|
    requires Reads(cfg.inputs[i], w.streams[i], s) && w' == w.(streams := w.streams[i := s])
    ensures StreamInv(cfg, w', j)
  {
    assert StreamInv(cfg, w, j);
    if i == j {
      ReadKeepsPlace(cfg.inputs[i], w.streams[i], s);
      ReadHandsNothing(cfg.inputs[i], w.streams[i], s);
    }
  }

  lemma ReadKeepsInv(cfg: Config, w: World, i: nat, w': World)
    requires Inv(cfg, w) && Next(cfg, w, Read(i), w')
    ensures Inv(cfg, w')
  {
    var s :| Reads(cfg.inputs[i], w.streams[i], s) && w' == w.(streams := w.streams[i := s]);
    assert StreamInv(cfg, w, i);
    ReadKeepsPlace(cfg.inputs[i], w.streams[i], s);
    CountChange(w.streams, i, s);
    forall j | 0 <= j < |w.streams| ensures StreamInv(cfg, w', j) {
      ReadKeepsStreams(cfg, w, i, s, w', j);
    }
  }

  lemma HandOverKeepsPlace(input: seq<Msg>, s: Stream, s': Stream)
    requires InPlace(input, s) && Offered(s.phase).Offer?
    requires s' == Stream(Offered(s.phase).next, s.taken)
    ensures InPlace(input, s') && !s'.phase.NotJoined?
    ensures var msg := Offered(s.phase).msg;
            Updates(input[..Handed(s')]) == Updates(input[..Handed(s)]) + if msg.Update? then [msg.track] else []
  {
    if Holding(s.phase) {
      UpdatesStep(input, s.taken - 1);
    }
    if s.phase.Leaving? {
      assert End(input) > Cut(input);
    }
  }

  lemma HandOverKeepsCounts(cfg: Config, w: World, i: nat, w': World)
    requires Inv(cfg, w) && Next(cfg, w, HandOver(i), w')
    ensures w'.m.backlogCount == HowMany(w'.streams, Loads) && w'.m.liveCount == HowMany(w'.streams, Follows)
    ensures w'.m.setupFinished == w'.setupSent
  {
    var o := Offered(w.streams[i].phase);
    ReceivedCounts(cfg.opts, w.m, o.ch, o.msg, w'.m);
    CountChange(w.streams, i, w'.streams[i]);
  }

  lemma HandOverKeepsTracks(cfg: Config, w: World, i: nat, w': World)
    requires w.m.tracks == StoredAll(cfg.opts, w.log) && Next(cfg, w, HandOver(i), w')
    ensures w'.m.tracks == StoredAll(cfg.opts, w'.log)
  {
    var o := Offered(w.streams[i].phase);
    ReceivedCounts(cfg.opts, w.m, o.ch, o.msg, w'.m);
    if o.msg.Update? {
      StoredStep(cfg.opts, w.log, Entry(i, o.msg.track), w.m, o.ch);
    } else {
      assert w'.log == w.log;
      NoUpdateNoTrack(cfg.opts, w.m, o.ch, o.msg);
    }
  }

  lemma NoUpdateNoTrack(opts: Options, m: Merger, ch: Channel, msg: Msg)
    requires !msg.Update?
    ensures Taken(opts, m, ch, msg).tracks == m.tracks
  {
  }

  lemma HandOverKeepsStreams(cfg: Config, w: World, i: nat, w': World, j: nat)
    requires Inv(cfg, w) && Next(cfg, w, HandOver(i), w') && j < |w.streams|
    ensures StreamInv(cfg, w', j)
  {
    assert StreamInv(cfg, w, j);
    var o := Offered(w.streams[i].phase);
    if o.msg.Update? {
      FromStep(w.log, Entry(i, o.msg.track), j);
    } else {
      assert w'.log == w.log;
    }
    if i == j {
      HandOverKeepsPlace(cfg.inputs[i], w.streams[i], w'.streams[i]);
    }
  }

  lemma HandOverKeepsInv(cfg: Config, w: World, i: nat, w': World)
    requires Inv(cfg, w) && Next(cfg, w, HandOver(i), w')
    ensures Inv(cfg, w')
  {
    HandOverKeepsCounts(cfg, w, i, w');
    HandOverKeepsTracks(cfg, w, i, w');
    forall j | 0 <= j < |w.streams| ensures StreamInv(cfg, w', j) {
      HandOverKeepsStreams(cfg, w, i, w', j);
    }
  }

  lemma MarkKeepsInv(cfg: Config, w: World, i: nat, w': World)
    requires Inv(cfg, w) && Next(cfg, w, Mark(i), w')
    ensures Inv(cfg, w')
  {
    CountChange(w.streams, i, w'.streams[i]);
    forall j | 0 <= j < |w.streams| ensures StreamInv(cfg, w', j) {
      assert StreamInv(cfg, w, j);
    }
  }

  lemma JoinKeepsInv(cfg: Config, w: World, w': World)
    requires Inv(cfg, w) && Next(cfg, w, Join, w')
    ensures Inv(cfg, w')
  {
    ReceivedCounts(cfg.opts, w.m, Backlog, Starting, w'.m);
    assert StreamInv(cfg, w, w.joined);
    CountChange(w.streams, w.joined, Stream(Loading, 0));
    forall j | 0 <= j < |w.streams| ensures StreamInv(cfg, w', j) {
      assert StreamInv(cfg, w, j);
    }
  }

  lemma OtherKeepsInv(cfg: Config, w: World, a: Action, w': World)
    requires Inv(cfg, w) && Next(cfg, w, a, w') && (a.FinishSetup? || a.Tick? || a.Exit?)
    ensures Inv(cfg, w')
  {
    if a.FinishSetup? {
      ReceivedCounts(cfg.opts, w.m, Backlog, SetupDone, w'.m);
    }
    forall j | 0 <= j < |w.streams| ensures StreamInv(cfg, w', j) {
      assert StreamInv(cfg, w, j);
    }
  }

  lemma NextKeepsInv(cfg: Config, w: World, a: Action, w': World)
    requires Inv(cfg, w) && Next(cfg, w, a, w')
    ensures Inv(cfg, w')
  {
    match a
    case Read(i) => ReadKeepsInv(cfg, w, i, w');
    case HandOver(i) => HandOverKeepsInv(cfg, w, i, w');
    case Mark(i) => MarkKeepsInv(cfg, w, i, w');
    case Join => JoinKeepsInv(cfg, w, w');
    case _ => OtherKeepsInv(cfg, w, a, w');
  }

  /** The invariant holds all along every run. */
  lemma {:induction false} InvAlways(cfg: Config, ws: seq<World>, k: nat)
    requires Behaviour(cfg, ws) && k < |ws|
    ensures Inv(cfg, ws[k])
  {
    if k == 0 {
      InitialInv(cfg);
    } else {
      InvAlways(cfg, ws, k - 1);
      assert Step(cfg, ws[k - 1], ws[k]);
      var a :| Next(cfg, ws[k - 1], a, ws[k]);
      NextKeepsInv(cfg, ws[k - 1], a, ws[k]);
    }
  }
}
