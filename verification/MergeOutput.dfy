/** What the client is told about the merged tracks, over every run and every interleaving. */
module MergeOutput {
  import opened Common
  import opened Tallies
  import opened TrackStore
  import opened TrackMerge
  import opened MergeProtocol
  import opened MergeGuarantees

  /** The last track sent under an identifier. */
  function LastSent(out: seq<Out>, id: string): (t: Option<Track>) {
    if out == [] then None
    else
      var o := out[|out| - 1];
      if o.Current? && o.track.id == id then Some(o.track) else LastSent(out[..|out| - 1], id)
  }

  lemma LastSentNext(out: seq<Out>, o: Out, id: string)
    ensures LastSent(out + [o], id) == if o.Current? && o.track.id == id then Some(o.track) else LastSent(out, id)
  {
    assert (out + [o])[..|out|] == out;
  }

  /** Tracks are stored under their identifiers. */
  ghost predicate Filed(tracks: map<string, Track>) {
    forall id :: id in tracks ==> tracks[id].id == id
  }

  /**
   What the client sees.  Without merging, it was last sent exactly what is
   stored.  With merging, once sending is on, it was last sent what is stored of
   every track that holds a target.
   */
  ghost predicate Shows(opts: Options, m: Merger) {
    if opts.disabled then forall id :: LastSent(m.out, id) == if id in m.tracks then Some(m.tracks[id]) else None
    else m.streamOut ==> forall id :: id in m.tracks && m.tracks[id].targets != [] ==> LastSent(m.out, id) == Some(m.tracks[id])
  }

  ghost predicate Picture(opts: Options, m: Merger) {
    Filed(m.tracks) && Shows(opts, m)
  }

  // ---------- changes ----------

  /** A list changes exactly if some arrival is accepted: it gets longer with history, and newer without. */
  lemma {:induction false} AcceptedIffChanged(historical: bool, list: seq<Report>, items: seq<Report>)
    ensures var r := InsertedAll(historical, list, items);
      && (AnyAccepted(historical, list, items) <==> r != list)
      && (historical ==> |r| == |list| + |items|)
      && (!historical && list != [] ==> r != [] && r[0].time >= list[0].time)
      && (!historical && list != [] && r != list ==> r[0].time > list[0].time)
  {
    if items != [] {
      AcceptedIffChanged(historical, list, items[..|items| - 1]);
    }
  }

  /** What is stored under an identifier differs, an absent track being empty. */
  ghost predicate Differs(m: Merger, r: Merger, id: string) {
    Existing(m.tracks, id) != Existing(r.tracks, id)
  }

  lemma ChangesIffDiffers(historical: bool, mem: Track, upd: Track)
    ensures Changes(historical, mem, upd) <==> Merged(historical, mem, upd) != mem
  {
    AcceptedIffChanged(historical, mem.targets, upd.targets);
    AcceptedIffChanged(historical, mem.metadata, upd.metadata);
  }

  /**
   The output follows the tracks: it gets one track, as it is stored now,
   exactly if that has changed and holds a target; at most a marker otherwise.
   */
  ghost predicate Tells(m: Merger, r: Merger) {
    && (forall id :: Differs(m, r, id) && Existing(r.tracks, id).targets != [] ==>
          r.out == m.out + [Current(Existing(r.tracks, id))])
    && (r.out == m.out || r.out == m.out + [StreamLoadDone] ||
        exists id :: Differs(m, r, id) && Existing(r.tracks, id).targets != [] && r.out == m.out + [Current(Existing(r.tracks, id))])
  }

  lemma ProcessedTells(opts: Options, m: Merger, upd: Option<Track>)
    requires !opts.disabled && m.streamOut && Filed(m.tracks)
    ensures Tells(m, Processed(opts, m, upd))
  {
    if upd.Some? {
      var r, id := Processed(opts, m, upd), upd.value.id;
      var mem := Existing(m.tracks, id);
      ChangesIffDiffers(opts.historical, mem, upd.value);
      assert Existing(r.tracks, id) == Merged(opts.historical, mem, upd.value);
      assert forall k :: k != id ==> !Differs(m, r, k);
      assert Differs(m, r, id) <==> Changes(opts.historical, mem, upd.value);
    }
  }

  // ---------- the picture is kept ----------

  lemma ProcessedPicture(opts: Options, m: Merger, upd: Option<Track>)
    requires Picture(opts, m)
    ensures Picture(opts, Processed(opts, m, upd))
  {
    if upd.Some? {
      var r, id := Processed(opts, m, upd), upd.value.id;
      if opts.disabled {
        PassedPicture(opts, m, upd.value);
      } else {
        MergedPicture(opts, m, upd.value);
      }
    }
  }

  lemma PassedPicture(opts: Options, m: Merger, upd: Track)
    requires Picture(opts, m) && opts.disabled
    ensures Picture(opts, Processed(opts, m, Some(upd)))
  {
    forall id
      ensures LastSent(m.out + [Current(upd)], id) == if upd.id == id then Some(upd) else LastSent(m.out, id)
    {
      LastSentNext(m.out, Current(upd), id);
    }
    assert m.out + [] == m.out;
  }

  lemma MergedPicture(opts: Options, m: Merger, upd: Track)
    requires Picture(opts, m) && !opts.disabled
    ensures Picture(opts, Processed(opts, m, Some(upd)))
  {
    var mem := Existing(m.tracks, upd.id);
    var t := Merged(opts.historical, mem, upd);
    ChangesIffDiffers(opts.historical, mem, upd);
    forall id ensures LastSent(m.out + [Current(t)], id) == if t.id == id then Some(t) else LastSent(m.out, id) {
      LastSentNext(m.out, Current(t), id);
    }
    assert m.out + [] == m.out;
  }

  /** After a burst the last track sent under each stored identifier is the one stored. */
  lemma {:induction false} LastOfBurst(out: seq<Out>, tracks: map<string, Track>, order: seq<string>, id: string)
    requires Filed(tracks) && (forall k :: k in order ==> k in tracks)
    ensures LastSent(out + AllCurrent(order, tracks), id) == if id in order then Some(tracks[id]) else LastSent(out, id)
  {
    if order == [] {
      assert out + AllCurrent(order, tracks) == out;
    } else {
      var n := |order| - 1;
      LastOfBurst(out, tracks, order[..n], id);
      assert out + AllCurrent(order, tracks) == (out + AllCurrent(order[..n], tracks)) + [Current(tracks[order[n]])];
      LastSentNext(out + AllCurrent(order[..n], tracks), Current(tracks[order[n]]), id);
      assert order == order[..n] + [order[n]];
    }
  }

  lemma SentAllPicture(opts: Options, m: Merger, r: Merger, order: seq<string>)
    requires Picture(opts, m) && SentAll(opts, m, r, order)
    ensures Picture(opts, r)
  {
    var sent := if opts.disabled then [] else AllCurrent(order, m.tracks);
    forall id ensures LastSent(r.out, id) == LastSent(m.out + sent, id) {
      LastSentNext(m.out + sent, MergerLoadDone, id);
    }
    if opts.disabled {
      assert m.out + sent == m.out;
    } else {
      forall id ensures LastSent(m.out + sent, id) == if id in order then Some(m.tracks[id]) else LastSent(m.out, id) {
        LastOfBurst(m.out, m.tracks, order, id);
      }
    }
  }

  lemma CheckedPicture(opts: Options, m: Merger, r: Merger)
    requires Picture(opts, m) && Checked(opts, m, r)
    ensures Picture(opts, r)
  {
    if StartsSending(m) {
      var order :| SentAll(opts, m, r, order);
      SentAllPicture(opts, m, r, order);
    }
  }

  lemma ReceivedPicture(opts: Options, m: Merger, ch: Channel, msg: Msg, r: Merger)
    requires Picture(opts, m) && Received(opts, m, ch, msg, r)
    ensures Picture(opts, r)
  {
    if msg.Update? {
      ProcessedPicture(opts, m, msg.track);
    }
    CheckedPicture(opts, Taken(opts, m, ch, msg), r);
  }

  // ---------- runs of the merger alone ----------

  /** After any updates, the client was last sent what is stored. */
  lemma {:induction false} PictureOfAll(opts: Options, upds: seq<Option<Track>>)
    ensures Picture(opts, ProcessedAll(opts, Initial(opts), upds))
  {
    if upds != [] {
      PictureOfAll(opts, upds[..|upds| - 1]);
      ProcessedPicture(opts, ProcessedAll(opts, Initial(opts), upds[..|upds| - 1]), upds[|upds| - 1]);
    }
  }

  lemma {:induction false} SendsFromStart(opts: Options, upds: seq<Option<Track>>)
    ensures ProcessedAll(opts, Initial(opts), upds).streamOut == !opts.historical
  {
    if upds != [] {
      SendsFromStart(opts, upds[..|upds| - 1]);
    }
  }

  /** With merging and without history, each update that changes a track with a target sends that track, once; no other sends anything. */
  lemma EachChangeIsSent(opts: Options, upds: seq<Option<Track>>, i: nat)
    requires !opts.disabled && !opts.historical && i < |upds|
    ensures Tells(ProcessedAll(opts, Initial(opts), upds[..i]), ProcessedAll(opts, Initial(opts), upds[..i + 1]))
  {
    assert upds[..i + 1][..i] == upds[..i];
    PictureOfAll(opts, upds[..i]);
    SendsFromStart(opts, upds[..i]);
    ProcessedTells(opts, ProcessedAll(opts, Initial(opts), upds[..i]), upds[i]);
  }

  /** What passing a track through adds to the output: nothing exactly if a newer one was sent last. */
  function PassedOn(out: seq<Out>, upd: Track): (o: seq<Out>) {
    var last := LastSent(out, upd.id);
    if last.Some? && TimeOf(upd) < TimeOf(last.value) then [] else [Current(upd)]
  }

  lemma ProcessedPasses(opts: Options, m: Merger, upd: Track)
    requires opts.disabled && Picture(opts, m)
    ensures Processed(opts, m, Some(upd)).out == m.out + PassedOn(m.out, upd)
  {
  }

  // ---------- every interleaving ----------

  /** A step of the protocol, as the merger sees it. */
  lemma StepOfMerger(cfg: Config, w: World, w': World)
    requires Step(cfg, w, w')
    ensures
      || w'.m == w.m
      || w'.m == w.m.(out := w.m.out + [StreamLoadDone])
      || Checked(cfg.opts, w.m, w'.m)
      || exists ch, msg :: Received(cfg.opts, w.m, ch, msg, w'.m)
  {
    var a :| Next(cfg, w, a, w');
    match a
    case Join => assert Received(cfg.opts, w.m, Backlog, Starting, w'.m);
    case FinishSetup => assert Received(cfg.opts, w.m, Backlog, SetupDone, w'.m);
    case HandOver(i) =>
      assert Received(cfg.opts, w.m, Offered(w.streams[i].phase).ch, Offered(w.streams[i].phase).msg, w'.m);
    case Tick =>
    case Mark(i) =>
    case Read(i) =>
    case Exit =>
  }

  lemma MarkedPicture(opts: Options, m: Merger)
    requires Picture(opts, m)
    ensures Picture(opts, m.(out := m.out + [StreamLoadDone]))
  {
    forall id ensures LastSent(m.out + [StreamLoadDone], id) == LastSent(m.out, id) {
      LastSentNext(m.out, StreamLoadDone, id);
    }
  }

  lemma StepPicture(cfg: Config, w: World, w': World)
    requires Step(cfg, w, w') && Picture(cfg.opts, w.m)
    ensures Picture(cfg.opts, w'.m)
  {
    StepOfMerger(cfg, w, w');
    if w'.m == w.m {
    } else if w'.m == w.m.(out := w.m.out + [StreamLoadDone]) {
      MarkedPicture(cfg.opts, w.m);
    } else if Checked(cfg.opts, w.m, w'.m) {
      CheckedPicture(cfg.opts, w.m, w'.m);
    } else {
      var ch, msg :| Received(cfg.opts, w.m, ch, msg, w'.m);
      ReceivedPicture(cfg.opts, w.m, ch, msg, w'.m);
    }
  }

  lemma PictureAtStart(cfg: Config)
    ensures Picture(cfg.opts, Start(cfg).m)
  {
  }

  /**
   In every interleaving: without merging the client was last sent exactly what
   is stored; with merging, once sending is on, it was last sent what is stored
   of every track that holds a target.
   */
  lemma {:induction false} ClientIsUpToDate(cfg: Config, ws: seq<World>, k: nat)
    requires Behaviour(cfg, ws) && k < |ws|
    ensures Picture(cfg.opts, ws[k].m)
  {
    if k == 0 {
      PictureAtStart(cfg);
    } else {
      ClientIsUpToDate(cfg, ws, k - 1);
      StepPicture(cfg, ws[k - 1], ws[k]);
    }
  }

  lemma ReceivedTells(opts: Options, m: Merger, ch: Channel, msg: Msg, r: Merger)
    requires !opts.disabled && m.streamOut && Filed(m.tracks) && Received(opts, m, ch, msg, r)
    ensures r.streamOut && Tells(m, r)
  {
    if msg.Update? {
      ProcessedTells(opts, m, msg.track);
    }
  }

  /**
   In every interleaving, with merging and once sending is on: each step that
   changes a track with a target sends that track as it is then, once, and no
   other step sends a track.
   */
  lemma EveryChangeIsSent(cfg: Config, ws: seq<World>, k: nat)
    requires Behaviour(cfg, ws) && !cfg.opts.disabled && k + 1 < |ws| && ws[k].m.streamOut
    ensures ws[k + 1].m.streamOut && Tells(ws[k].m, ws[k + 1].m)
  {
    var m, r := ws[k].m, ws[k + 1].m;
    ClientIsUpToDate(cfg, ws, k);
    assert Step(cfg, ws[k + 1 - 1], ws[k + 1]);
    StepOfMerger(cfg, ws[k], ws[k + 1]);
    if ch, msg :| Received(cfg.opts, m, ch, msg, r) {
      ReceivedTells(cfg.opts, m, ch, msg, r);
    }
  }

  /** A step that takes an update does nothing else. */
  lemma UpdateIsProcessed(cfg: Config, w: World, w': World, e: Entry)
    requires Step(cfg, w, w') && !StartsSending(w.m) && w'.log == w.log + [e]
    ensures w'.m == Processed(cfg.opts, w.m, e.upd)
  {
    var a :| Next(cfg, w, a, w');
    var i := a.i;
    assert w'.log[|w.log|] == e;
    assert Offered(w.streams[i].phase).msg == Update(e.upd);
  }

  /**
   In every interleaving, without merging: an update that the merger takes is
   sent on as it came, unless a newer one was the last sent for its track.
   */
  lemma EveryUpdateIsPassed(cfg: Config, ws: seq<World>, k: nat, e: Entry)
    requires Behaviour(cfg, ws) && cfg.opts.disabled && k + 1 < |ws| && ws[k + 1].log == ws[k].log + [e]
    ensures ws[k + 1].m.out == ws[k].m.out + if e.upd.None? then [] else PassedOn(ws[k].m.out, e.upd.value)
  {
    ClientIsUpToDate(cfg, ws, k);
    SteadyAlways(cfg, ws, k);
    assert Step(cfg, ws[k + 1 - 1], ws[k + 1]);
    UpdateIsProcessed(cfg, ws[k], ws[k + 1], e);
    if e.upd.Some? {
      ProcessedPasses(cfg.opts, ws[k].m, e.upd.value);
    }
  }

  // ---------- the markers of the streams ----------

  predicate IsStreamMark(o: Out) {
    o.StreamLoadDone?
  }

  /** How many markers of streams are out. */
  function StreamMarks(out: seq<Out>): (n: nat) {
    if out == [] then 0 else StreamMarks(out[..|out| - 1]) + One(IsStreamMark(out[|out| - 1]))
  }

  lemma {:induction false} StreamMarksJoin(a: seq<Out>, b: seq<Out>)
    ensures StreamMarks(a + b) == StreamMarks(a) + StreamMarks(b)
  {
    if b == [] {
      assert a + b == a;
    } else {
      var n := |b| - 1;
      assert (a + b)[..|a| + n] == a + b[..n];
      StreamMarksJoin(a, b[..n]);
    }
  }

  lemma {:induction false} NoStreamMarks(out: seq<Out>)
    requires forall i :: 0 <= i < |out| ==> !IsStreamMark(out[i])
    ensures StreamMarks(out) == 0
  {
    if out != [] {
      NoStreamMarks(out[..|out| - 1]);
    }
  }

  lemma NoneAdded(before: seq<Out>, sent: seq<Out>, after: seq<Out>)
    requires after == before + sent && forall i :: 0 <= i < |sent| ==> !IsStreamMark(sent[i])
    ensures StreamMarks(after) == StreamMarks(before)
  {
    StreamMarksJoin(before, sent);
    NoStreamMarks(sent);
  }

  lemma SentAllMarks(opts: Options, m: Merger, r: Merger, order: seq<string>)
    requires SentAll(opts, m, r, order)
    ensures StreamMarks(r.out) == StreamMarks(m.out)
  {
    var sent := if opts.disabled then [] else AllCurrent(order, m.tracks);
    NoneAdded(m.out, sent, m.out + sent);
    NoneAdded(m.out + sent, [MergerLoadDone], r.out);
  }

  lemma CheckedMarks(opts: Options, m: Merger, r: Merger)
    requires Checked(opts, m, r)
    ensures StreamMarks(r.out) == StreamMarks(m.out)
  {
    if StartsSending(m) {
      var order :| SentAll(opts, m, r, order);
      SentAllMarks(opts, m, r, order);
    }
  }

  lemma EmitsNoMarks(opts: Options, streamOut: bool, tracks: map<string, Track>, upd: Track)
    ensures forall i :: 0 <= i < |Emitted(opts, streamOut, tracks, upd)| ==> !IsStreamMark(Emitted(opts, streamOut, tracks, upd)[i])
  {
  }

  lemma TakenMarks(opts: Options, m: Merger, ch: Channel, msg: Msg)
    ensures StreamMarks(Taken(opts, m, ch, msg).out) == StreamMarks(m.out)
  {
    if msg.Update? && msg.track.Some? {
      EmitsNoMarks(opts, m.streamOut, m.tracks, msg.track.value);
      NoneAdded(m.out, Emitted(opts, m.streamOut, m.tracks, msg.track.value), Taken(opts, m, ch, msg).out);
    }
  }

  lemma ReceivedMarks(opts: Options, m: Merger, ch: Channel, msg: Msg, r: Merger)
    requires Received(opts, m, ch, msg, r)
    ensures StreamMarks(r.out) == StreamMarks(m.out)
  {
    TakenMarks(opts, m, ch, msg);
    CheckedMarks(opts, Taken(opts, m, ch, msg), r);
  }

  /** A stream has read that its initial load is done, and has told so. */
  predicate HasMarked(input: seq<Msg>, s: Stream) {
    Cut(input) < |input| && input[Cut(input)].LoadDone? && s.taken > Cut(input) && !s.phase.Marking?
  }

  function Flags(inputs: seq<seq<Msg>>, streams: seq<Stream>): (flags: seq<bool>)
    requires |inputs| == |streams|
    ensures |flags| == |streams| && forall i :: 0 <= i < |streams| ==> flags[i] == HasMarked(inputs[i], streams[i])
  {
    seq(|streams|, i requires 0 <= i < |streams| => HasMarked(inputs[i], streams[i]))
  }

  predicate IsSet(b: bool) {
    b
  }

  ghost predicate MarksMatch(cfg: Config, w: World) {
    |w.streams| == |cfg.inputs| && StreamMarks(w.m.out) == HowMany(Flags(cfg.inputs, w.streams), IsSet)
  }

  lemma FlagsChange(inputs: seq<seq<Msg>>, streams: seq<Stream>, i: nat, s: Stream)
    requires |inputs| == |streams| && i < |streams|
    ensures HowMany(Flags(inputs, streams[i := s]), IsSet) ==
            HowMany(Flags(inputs, streams), IsSet) - One(HasMarked(inputs[i], streams[i])) + One(HasMarked(inputs[i], s))
  {
    var flags := Flags(inputs, streams);
    assert Flags(inputs, streams[i := s]) == flags[i := HasMarked(inputs[i], s)];
    HowManyChange(flags, IsSet, i, HasMarked(inputs[i], s));
  }

  lemma ReadMarks(input: seq<Msg>, s: Stream, s': Stream)
    requires InPlace(input, s) && Reads(input, s, s')
    ensures HasMarked(input, s') <==> HasMarked(input, s)
  {
  }

  /** A stream moves, and a marker is out exactly if it has told so just now. */
  lemma StreamMoves(cfg: Config, w: World, w': World, i: nat, s: Stream)
    requires MarksMatch(cfg, w) && i < |w.streams| && w'.streams == w.streams[i := s]
    requires StreamMarks(w'.m.out) == StreamMarks(w.m.out) - One(HasMarked(cfg.inputs[i], w.streams[i])) + One(HasMarked(cfg.inputs[i], s))
    ensures MarksMatch(cfg, w')
  {
    FlagsChange(cfg.inputs, w.streams, i, s);
  }

  lemma JoinMarks(cfg: Config, w: World, w': World)
    requires Inv(cfg, w) && Next(cfg, w, Join, w') && MarksMatch(cfg, w)
    ensures MarksMatch(cfg, w')
  {
    ReceivedMarks(cfg.opts, w.m, Backlog, Starting, w'.m);
    assert StreamInv(cfg, w, w.joined);
    StreamMoves(cfg, w, w', w.joined, Stream(Loading, 0));
  }

  lemma ReadStepMarks(cfg: Config, w: World, w': World, i: nat)
    requires Inv(cfg, w) && Next(cfg, w, Read(i), w') && MarksMatch(cfg, w)
    ensures MarksMatch(cfg, w')
  {
    var s :| Reads(cfg.inputs[i], w.streams[i], s) && w' == w.(streams := w.streams[i := s]);
    assert StreamInv(cfg, w, i);
    ReadMarks(cfg.inputs[i], w.streams[i], s);
    StreamMoves(cfg, w, w', i, s);
  }

  lemma MarkMarks(cfg: Config, w: World, w': World, i: nat)
    requires Inv(cfg, w) && Next(cfg, w, Mark(i), w') && MarksMatch(cfg, w)
    ensures MarksMatch(cfg, w')
  {
    assert StreamInv(cfg, w, i);
    assert w'.m.out[..|w.m.out|] == w.m.out;
    StreamMoves(cfg, w, w', i, Stream(Announcing, w.streams[i].taken));
  }

  lemma HandOverMarks(cfg: Config, w: World, w': World, i: nat)
    requires Next(cfg, w, HandOver(i), w') && MarksMatch(cfg, w)
    ensures MarksMatch(cfg, w')
  {
    var o := Offered(w.streams[i].phase);
    ReceivedMarks(cfg.opts, w.m, o.ch, o.msg, w'.m);
    StreamMoves(cfg, w, w', i, Stream(o.next, w.streams[i].taken));
  }

  lemma StepMarks(cfg: Config, w: World, w': World)
    requires Inv(cfg, w) && Step(cfg, w, w') && MarksMatch(cfg, w)
    ensures MarksMatch(cfg, w')
  {
    var a :| Next(cfg, w, a, w');
    match a
    case Join => JoinMarks(cfg, w, w');
    case FinishSetup => ReceivedMarks(cfg.opts, w.m, Backlog, SetupDone, w'.m);
    case Read(i) => ReadStepMarks(cfg, w, w', i);
    case Mark(i) => MarkMarks(cfg, w, w', i);
    case HandOver(i) => HandOverMarks(cfg, w, w', i);
    case Tick => CheckedMarks(cfg.opts, w.m, w'.m);
    case Exit =>
  }

  lemma MarksAtStart(cfg: Config)
    ensures MarksMatch(cfg, Start(cfg))
  {
    HowManyNone(Flags(cfg.inputs, Start(cfg).streams), IsSet);
  }

  /** In every interleaving the output carries one marker for each stream that has told that its initial load is done. */
  lemma {:induction false} EveryStreamMarks(cfg: Config, ws: seq<World>, k: nat)
    requires Behaviour(cfg, ws) && k < |ws|
    ensures MarksMatch(cfg, ws[k])
  {
    if k == 0 {
      MarksAtStart(cfg);
    } else {
      EveryStreamMarks(cfg, ws, k - 1);
      InvAlways(cfg, ws, k - 1);
      StepMarks(cfg, ws[k - 1], ws[k]);
    }
  }
}
