/**
 The track merger: one thread that takes messages from the streams, merges
 updates into its tracks, and decides when to start sending.  `Merger` is its
 state as a value, the class `TrackMerger` the code that updates it.
 */
module TrackMerge {
  import opened Common
  import opened TrackStore

  /** What the streams tell the merger. */
  datatype Msg = Starting | Closing | LoadDone | SetupDone | Update(track: Option<Track>)

  datatype Channel = Backlog | Live

  /** What is sent on the output channel; the load-done markers of the streams and of the merger are told apart. */
  datatype Out = Current(track: Track) | StreamLoadDone | MergerLoadDone

  datatype Merger = Merger(backlogCount: int, liveCount: int, setupFinished: bool, streamOut: bool,
                           tracks: map<string, Track>, out: seq<Out>)

  function Initial(opts: Options): (m: Merger) {
    Merger(0, 0, false, !opts.historical, map[], [])
  }

  /** The zero time of the clock, in nanoseconds from the epoch. */
  const ZERO_TIME: int := -62135596800_000_000_000

  function LatestTime(time: int, reports: seq<Report>): (t: int)
    ensures t >= time && forall r :: r in reports ==> r.time <= t
    ensures t == time || exists r :: r in reports && r.time == t
  {
    if reports == [] then time
    else
      var t := LatestTime(time, reports[..|reports| - 1]);
      assert reports == reports[..|reports| - 1] + [reports[|reports| - 1]];
      Max(t, reports[|reports| - 1].time)
  }

  /** The time of a track: the latest of its reports. */
  function TimeOf(track: Track): (t: int) {
    LatestTime(LatestTime(ZERO_TIME, track.targets), track.metadata)
  }

  /** It is not before any report of the track, and is that of one of them, or the zero time. */
  lemma TimeOfIsLatest(track: Track)
    ensures forall r :: r in track.targets || r in track.metadata ==> r.time <= TimeOf(track)
    ensures TimeOf(track) == ZERO_TIME || exists r :: (r in track.targets || r in track.metadata) && r.time == TimeOf(track)
  {
  }

  function Existing(tracks: map<string, Track>, id: string): (t: Track)
    ensures id in tracks ==> t == tracks[id]
  {
    if id in tracks then tracks[id] else Track(id, [], [])
  }

  /** A track in memory with the reports of an update. */
  function Merged(historical: bool, mem: Track, upd: Track): (t: Track) {
    Track(mem.id, InsertedAll(historical, mem.targets, upd.targets), InsertedAll(historical, mem.metadata, upd.metadata))
  }

  predicate AnyAccepted(historical: bool, list: seq<Report>, items: seq<Report>) {
    items != [] &&
    var init := items[..|items| - 1];
    AnyAccepted(historical, list, init) || Accepts(historical, InsertedAll(historical, list, init), items[|items| - 1])
  }

  predicate Changes(historical: bool, mem: Track, upd: Track) {
    AnyAccepted(historical, mem.targets, upd.targets) || AnyAccepted(historical, mem.metadata, upd.metadata)
  }

  /** Without merging: is this track older than the last one passed on? */
  predicate Outdated(tracks: map<string, Track>, upd: Track) {
    upd.id in tracks && TimeOf(upd) < TimeOf(tracks[upd.id])
  }

  /** Without an identifier there is no track to merge into; that is fine only if there is nothing to merge. */
  predicate Nothing(upd: Track) {
    upd.id == "" && upd.targets == [] && upd.metadata == []
  }

  predicate Mergeable(upd: Track) {
    upd.id != "" || Nothing(upd)
  }

  /** The tracks in memory after an update. */
  function Stored(opts: Options, tracks: map<string, Track>, upd: Track): (r: map<string, Track>) {
    if opts.disabled then if Outdated(tracks, upd) then tracks else tracks[upd.id := upd]
    else if Nothing(upd) then tracks
    else tracks[upd.id := Merged(opts.historical, Existing(tracks, upd.id), upd)]
  }

  /** What is sent on for an update. */
  function Emitted(opts: Options, streamOut: bool, tracks: map<string, Track>, upd: Track): (o: seq<Out>) {
    if opts.disabled then if Outdated(tracks, upd) then [] else [Current(upd)]
    else
      var mem := Existing(tracks, upd.id);
      var t := Merged(opts.historical, mem, upd);
      if Changes(opts.historical, mem, upd) && t.targets != [] && streamOut then [Current(t)] else []
  }

  /** Processing one object. */
  function Processed(opts: Options, m: Merger, upd: Option<Track>): (r: Merger) {
    if upd.None? then m
    else m.(tracks := Stored(opts, m.tracks, upd.value), out := m.out + Emitted(opts, m.streamOut, m.tracks, upd.value))
  }

  /** Taking one message from a channel, before the check whether to start sending. */
  function Taken(opts: Options, m: Merger, ch: Channel, msg: Msg): (r: Merger) {
    match msg
    case Starting => if ch == Backlog then m.(backlogCount := m.backlogCount + 1) else m.(liveCount := m.liveCount + 1)
    case Closing | LoadDone =>
      if ch == Backlog then m.(backlogCount := m.backlogCount - 1) else m.(liveCount := m.liveCount - 1)
    case SetupDone => m.(setupFinished := true)
    case Update(upd) => Processed(opts, m, upd)
  }

  predicate StartsSending(m: Merger) {
    !m.streamOut && m.setupFinished && m.backlogCount == 0
  }

  /** An order in which every stored track comes exactly once. */
  ghost predicate IsOrder(order: seq<string>, tracks: map<string, Track>) {
    && (forall i, j :: 0 <= i < j < |order| ==> order[i] != order[j])
    && (forall id :: id in order <==> id in tracks)
  }

  ghost function AllCurrent(order: seq<string>, tracks: map<string, Track>): (o: seq<Out>)
    requires forall id :: id in order ==> id in tracks
  {
    seq(|order|, i requires 0 <= i < |order| => Current(tracks[order[i]]))
  }

  /** Everything in memory, in some order, and the marker. */
  ghost predicate SentAll(opts: Options, m: Merger, r: Merger, order: seq<string>) {
    && IsOrder(order, m.tracks)
    && r == m.(streamOut := true,
               out := m.out + (if opts.disabled then [] else AllCurrent(order, m.tracks)) + [MergerLoadDone])
  }

  /** One turn of the service loop on a message. */
  ghost predicate Received(opts: Options, m: Merger, ch: Channel, msg: Msg, r: Merger) {
    Checked(opts, Taken(opts, m, ch, msg), r)
  }

  ghost predicate Checked(opts: Options, m: Merger, r: Merger) {
    if StartsSending(m) then exists order :: SentAll(opts, m, r, order) else r == m
  }

  /** The service loop goes on. */
  predicate Serving(m: Merger) {
    !m.setupFinished || m.backlogCount > 0 || m.liveCount > 0
  }

  class TrackMerger {
    const opts: Options
    var backlogCount: int
    var liveCount: int
    var setupFinished: bool
    var streamOut: bool
    var tracks: map<string, Track>
    var out: seq<Out>

    ghost function State(): (m: Merger)
      reads this
    {
      Merger(backlogCount, liveCount, setupFinished, streamOut, tracks, out)
    }

    constructor (opts: Options)
      ensures this.opts == opts && State() == Initial(opts)
    {
      this.opts := opts;
      backlogCount, liveCount, setupFinished, streamOut := 0, 0, false, !opts.historical;
      tracks, out := map[], [];
    }

    /** Read one message from a channel and process it. */
    method Drain(ch: Channel, msg: Msg)
      requires !opts.disabled && msg.Update? && msg.track.Some? ==> Mergeable(msg.track.value)
      modifies this
      ensures Received(opts, old(State()), ch, msg, State())
    {
      match msg {
        case Starting =>
          if ch == Backlog { backlogCount := backlogCount + 1; } else { liveCount := liveCount + 1; }
        case Closing | LoadDone =>
          if ch == Backlog { backlogCount := backlogCount - 1; } else { liveCount := liveCount - 1; }
        case SetupDone =>
          setupFinished := true;
        case Update(upd) =>
          Object(upd);
      }
      ghost var taken := State();
      assert taken == Taken(opts, old(State()), ch, msg);
      if !streamOut && setupFinished && backlogCount == 0 {
        streamOut := true;
        ghost var order := SendAll();
        assert SentAll(opts, taken, State(), order);
      }
    }

    /** Process an object: merge it, and send the track if it changed. */
    method Object(upd: Option<Track>)
      requires !opts.disabled && upd.Some? ==> Mergeable(upd.value)
      modifies this`tracks, this`out
      ensures State() == Processed(opts, old(State()), upd)
    {
      if upd.None? {
        return;
      }
      if opts.disabled {
        SendTrack(upd.value);
        return;
      }
      if upd.value.id == "" {
        return;
      }
      var mem := Existing(tracks, upd.value.id);
      var send := false;
      var targets, changed := InsertAll(mem.targets, upd.value.targets);
      if changed { send := true; }
      var metadata;
      metadata, changed := InsertAll(mem.metadata, upd.value.metadata);
      if changed { send := true; }
      assert send == Changes(opts.historical, mem, upd.value);
      mem := Track(mem.id, targets, metadata);
      assert mem == Merged(opts.historical, Existing(old(tracks), upd.value.id), upd.value);
      tracks := tracks[upd.value.id := mem];
      assert tracks == Stored(opts, old(tracks), upd.value);
      if send {
        SendTrack(mem);
      }
    }

    method InsertAll(list: seq<Report>, items: seq<Report>) returns (r: seq<Report>, changed: bool)
      ensures r == InsertedAll(opts.historical, list, items)
      ensures changed == AnyAccepted(opts.historical, list, items)
    {
      r, changed := list, false;
      for i := 0 to |items|
        invariant r == InsertedAll(opts.historical, list, items[..i])
        invariant changed == AnyAccepted(opts.historical, list, items[..i])
      {
        assert items[..i + 1][..i] == items[..i];
        var c;
        r, c := Insert(opts.historical, r, items[i]);
        if c { changed := true; }
      }
      assert items[..|items|] == items;
    }

    /** Send a track to the client. */
    method SendTrack(track: Track)
      modifies this`tracks, this`out
      ensures opts.disabled ==>
                && tracks == Stored(opts, old(tracks), track)
                && out == old(out) + Emitted(opts, streamOut, old(tracks), track)
      ensures !opts.disabled ==>
                tracks == old(tracks) && out == old(out) + if track.targets != [] && streamOut then [Current(track)] else []
    {
      if opts.disabled {
        if track.id in tracks && TimeOf(track) < TimeOf(tracks[track.id]) {
          return;
        }
        tracks := tracks[track.id := track];
        out := out + [Current(track)];
      } else if track.targets != [] && streamOut {
        out := out + [Current(track)];
      }
    }

    /** Send everything in memory, in the order the map gives it, and the marker. */
    method SendAll() returns (ghost order: seq<string>)
      modifies this`out
      ensures IsOrder(order, tracks)
      ensures out == old(out) + (if opts.disabled then [] else AllCurrent(order, tracks)) + [MergerLoadDone]
    {
      order := AnyOrder(tracks);
      if !opts.disabled {
        order := [];
        var left := tracks.Keys;
        while left != {}
          invariant left <= tracks.Keys
          invariant forall i, j :: 0 <= i < j < |order| ==> order[i] != order[j]
          invariant forall id :: id in order <==> id in tracks && id !in left
          invariant out == old(out) + AllCurrent(order, tracks)
          decreases left
        {
          var id :| id in left;
          left := left - {id};
          assert AllCurrent(order + [id], tracks) == AllCurrent(order, tracks) + [Current(tracks[id])];
          order := order + [id];
          out := out + [Current(tracks[id])];
        }
      }
      out := out + [MergerLoadDone];
    }
  }

  /** A map can always be listed. */
  ghost function AnyOrder(tracks: map<string, Track>): (order: seq<string>)
    ensures IsOrder(order, tracks)
    decreases |tracks|
  {
    if tracks == map[] then []
    else
      var id :| id in tracks;
      var rest := AnyOrder(tracks - {id});
      assert forall k :: k in rest + [id] <==> k in rest || k == id;
      rest + [id]
  }

  // ---------- runs of the merger ----------

  function ProcessedAll(opts: Options, m: Merger, upds: seq<Option<Track>>): (r: Merger) {
    if upds == [] then m else Processed(opts, ProcessedAll(opts, m, upds[..|upds| - 1]), upds[|upds| - 1])
  }

  /** The targets of a track, or its metadata. */
  function Part(t: Track, meta: bool): (reports: seq<Report>) {
    if meta then t.metadata else t.targets
  }

  /** The reports that arrived for one track, in order. */
  function Arrived(upds: seq<Option<Track>>, id: string, meta: bool): (items: seq<Report>) {
    if upds == [] then []
    else
      var last := upds[|upds| - 1];
      Arrived(upds[..|upds| - 1], id, meta) + if last.Some? && last.value.id == id then Part(last.value, meta) else []
  }

  /** With merging, what is stored for a track is what the arrivals for it leave, and nothing of other tracks. */
  lemma {:induction false} StoredIsArrived(opts: Options, upds: seq<Option<Track>>, id: string, meta: bool)
    requires !opts.disabled
    ensures Part(Existing(ProcessedAll(opts, Initial(opts), upds).tracks, id), meta) ==
            InsertedAll(opts.historical, [], Arrived(upds, id, meta))
  {
    if upds != [] {
      var init, last := upds[..|upds| - 1], upds[|upds| - 1];
      StoredIsArrived(opts, init, id, meta);
      if last.Some? && last.value.id == id {
        InsertedAllAppends(opts.historical, [], Arrived(init, id, meta), Part(last.value, meta));
      } else {
        assert Arrived(upds, id, meta) == Arrived(init, id, meta);
      }
    }
  }

  /** In latest-only mode a track stores the first latest of all targets, and of all metadata, that ever arrived for it. */
  lemma StoresFirstLatest(opts: Options, upds: seq<Option<Track>>, id: string, meta: bool) returns (k: nat)
    requires !opts.disabled && !opts.historical && Arrived(upds, id, meta) != []
    ensures IsFirstLatest(Arrived(upds, id, meta), k)
    ensures Part(Existing(ProcessedAll(opts, Initial(opts), upds).tracks, id), meta) == [Arrived(upds, id, meta)[k]]
  {
    StoredIsArrived(opts, upds, id, meta);
    k := LatestOnly(Arrived(upds, id, meta));
  }

  /** In historical mode a track stores all targets, and all metadata, that ever arrived for it. */
  lemma StoresEverything(opts: Options, upds: seq<Option<Track>>, id: string, meta: bool)
    requires !opts.disabled && opts.historical
    ensures multiset(Part(Existing(ProcessedAll(opts, Initial(opts), upds).tracks, id), meta)) == multiset(Arrived(upds, id, meta))
  {
    StoredIsArrived(opts, upds, id, meta);
    HistoryIsEverything(Arrived(upds, id, meta));
  }

  /** The time a sent track is known by: that of its target, or of the whole track when it is passed through. */
  ghost function Stamp(opts: Options, t: Track): (time: int) {
    if opts.disabled || t.targets == [] then TimeOf(t) else t.targets[0].time
  }

  /** For each track, times never went back, and what is in memory is as new as what was sent. */
  ghost predicate Forward(opts: Options, tracks: map<string, Track>, out: seq<Out>) {
    && (forall id :: id in tracks ==> tracks[id].id == id && (!opts.disabled ==> |tracks[id].targets| <= 1))
    && (forall i :: 0 <= i < |out| && out[i].Current? ==>
          && out[i].track.id in tracks
          && (!opts.disabled ==> |out[i].track.targets| == 1 && |tracks[out[i].track.id].targets| == 1)
          && Stamp(opts, out[i].track) <= Stamp(opts, tracks[out[i].track.id]))
    && (forall i, j :: 0 <= i < j < |out| && out[i].Current? && out[j].Current? && out[i].track.id == out[j].track.id ==>
          Stamp(opts, out[i].track) <= Stamp(opts, out[j].track))
  }

  /** A list of at most one report stays so, and gets no older. */
  lemma {:induction false} InsertedAllIntoOne(list: seq<Report>, items: seq<Report>)
    requires |list| <= 1
    ensures |list| <= |InsertedAll(false, list, items)| <= 1
    ensures list != [] ==> InsertedAll(false, list, items)[0].time >= list[0].time
  {
    if items != [] {
      var init := InsertedAll(false, list, items[..|items| - 1]);
      InsertedAllIntoOne(list, items[..|items| - 1]);
      var item := items[|items| - 1];
      if init == [] {
        InsertedIntoOne(item, item);
      } else {
        assert init == [init[0]];
        InsertedIntoOne(init[0], item);
      }
    }
  }

  lemma ProcessedKeepsForward(opts: Options, m: Merger, upd: Option<Track>)
    requires !opts.historical && Forward(opts, m.tracks, m.out)
    ensures Forward(opts, Processed(opts, m, upd).tracks, Processed(opts, m, upd).out)
  {
    if upd.Some? {
      if opts.disabled {
        PassedKeepsForward(opts, m, upd.value);
      } else {
        MergedKeepsForward(opts, m, upd.value);
      }
    }
  }

  lemma PassedKeepsForward(opts: Options, m: Merger, upd: Track)
    requires !opts.historical && opts.disabled && Forward(opts, m.tracks, m.out)
    ensures Forward(opts, Processed(opts, m, Some(upd)).tracks, Processed(opts, m, Some(upd)).out)
  {
    if !Outdated(m.tracks, upd) {
      StoresForward(opts, m.tracks, m.out, upd);
      SendsForward(opts, m.tracks[upd.id := upd], m.out, upd.id);
    } else {
      assert m.out + [] == m.out;
    }
  }

  lemma MergedKeepsForward(opts: Options, m: Merger, upd: Track)
    requires !opts.historical && !opts.disabled && Forward(opts, m.tracks, m.out)
    ensures Forward(opts, Processed(opts, m, Some(upd)).tracks, Processed(opts, m, Some(upd)).out)
  {
    var mem := Existing(m.tracks, upd.id);
    InsertedAllIntoOne(mem.targets, upd.targets);
    if Nothing(upd) {
      assert m.out + [] == m.out;
    } else {
      var t := Merged(opts.historical, mem, upd);
      assert t.id == upd.id;
      StoresForward(opts, m.tracks, m.out, t);
      if t.targets != [] {
        SendsForward(opts, m.tracks[t.id := t], m.out, t.id);
      }
      assert m.out + [] == m.out;
    }
  }

  /** A track that is as new as the one stored may be stored. */
  lemma StoresForward(opts: Options, tracks: map<string, Track>, out: seq<Out>, t: Track)
    requires Forward(opts, tracks, out) && (!opts.disabled ==> |t.targets| <= 1)
    requires t.id in tracks ==> AsNew(opts, tracks[t.id], t)
    ensures Forward(opts, tracks[t.id := t], out)
  {
  }

  /** It replaces the other one without loss. */
  ghost predicate AsNew(opts: Options, other: Track, t: Track) {
    && (!opts.disabled ==> |other.targets| <= |t.targets|)
    && (opts.disabled || other.targets != [] ==> Stamp(opts, other) <= Stamp(opts, t))
  }

  /** What is stored may be sent, if it has a target. */
  lemma SendsForward(opts: Options, tracks: map<string, Track>, out: seq<Out>, id: string)
    requires Forward(opts, tracks, out) && id in tracks && (opts.disabled || tracks[id].targets != [])
    ensures Forward(opts, tracks, out + [Current(tracks[id])])
  {
  }

  /** Without history, whatever arrives: the times sent for one track never go back. */
  lemma {:induction false} SentTimesNeverGoBack(opts: Options, upds: seq<Option<Track>>)
    requires !opts.historical
    ensures var m := ProcessedAll(opts, Initial(opts), upds); Forward(opts, m.tracks, m.out)
  {
    if upds != [] {
      SentTimesNeverGoBack(opts, upds[..|upds| - 1]);
      ProcessedKeepsForward(opts, ProcessedAll(opts, Initial(opts), upds[..|upds| - 1]), upds[|upds| - 1]);
    }
  }
}
