# Tracks, features and codecs of a maritime picture, verified

This project models the part of the system that turns streams of track and
feature updates into what a client sees, and the codecs around it, and proves
what the code promises about them. Everything is Dafny 4.11; `dafny verify
dfyconfig.toml` checks the whole project.

| files | what they model |
|---|---|
| `TimeoutHeap`, `TrackTimeouts`, `TrackTimeoutRuns`, `TrackTimeoutAnswers`, `MiscTimeouts`, `MiscTimeoutRuns` | an array heap of deadlines with an index by identifier, and the two timeout stages built on it |
| `Viewport` | what of a feature collection is visible, how much of it is counted, and heatmap mode |
| `TrackStore`, `TrackMerge` | how reports are placed in tracks, and the merger thread |
| `MergeProtocol`, `MergeGuarantees`, `MergeOutput` | the streams and the merger as one state machine over all interleavings, and what the client is sent |
| `StreamCompress`, `StreamOrder` | the queue that keeps only the latest of each track under backpressure |
| `AssociatedData`, `AssociatedGuarantees` | the threads that collect associated data, over two wait groups |
| `TrackSearch` | the list of the first tracks by name, and searches |
| `Bits`, `Ais`, `AisBits`, `AisReport` | AIS position reports as six-bit characters, written and read |
| `Texts`, `NmeaFields`, `NmeaSentence` | comma-separated NMEA sentences, written and read |
| `Decimals`, `TargetIds` | target identifiers as strings, and serial numbers |
| `StripWhitespace` | whitespace of JSON texts outside strings |
| `Common`, `Tallies` | what several of these share; counts and sums over threads |

Where the source updates an object, there is a class with the same fields;
its methods are proved against functions and predicates on values, and what
is promised over whole runs is proved about those. Where the source runs
threads, there is a state machine over their steps, and claims hold in every
interleaving.

## What the code does not do

Some of what one would expect of the code is not so. Each of these has a lemma
with an input on which it fails, named last, and the exact condition under which
it holds.

- The deadline of a track (`track_timeouts.go`, which speaks of the deadline
  furthest in the future) is the furthest of its targets' deadlines exactly if
  no target after the last one attaining it reaches past it by update time:
  `DeadlineIsFurthestIff`, `DeadlineCanBeLowered`.
- A track can be told timed out twice with nothing in between, because a track
  that is timed out on arrival keeps its old entry. In no run with given updates
  in which the clock does not go back does this happen exactly if updates tell of
  a timeout only when they are timed out on arrival and are the first about their
  track: `NeverTwiceIff`, `LostIsToldTwice`. A track last told current always has
  an entry.
- What the client was last told is current has its expiration pending all along
  exactly if at every timer event every creation due has its expiration pending:
  `ClientCoveredIff`, `ForgottenExpiration`. A new version of such an object, the
  last one, is told of by the first timer event after its expiration exactly if it
  was not over on arrival or an expiration was awaited: `ToldIff`, `NeverTold`. The
  first property, extended to what is about to be created, holds exactly if no
  timer event finds an expiration due, or missing, whose object's creation is
  still to come: `CoveredIff`.
- When the heatmap stops, the mutual recursion through `stopHeatmap` ends
  exactly if fewer than the starting number of counted features lie within the
  bounds: `RestartEndsIff`. Otherwise the heatmap starts and stops for ever, as it
  does with enough counted features that do not belong in it: `HeatmapFlickers`.
  The two thresholds come from the request, or are constants, and are not checked
  against each other (tms/db/featuresdb_impl.go:233-242); a start count that is
  not above the stop count is such a case as well: `ThresholdsCross`. If exactly
  the heatmap features are counted and the thresholds leave a gap, the recursion
  always ends.
- A history stays newest first exactly if every arrival is no older than the
  oldest report, and no newer report from elsewhere stands where a fusion report
  goes: `HistoryOrderedIff`, `HistoryUnsorts`. In terms of the arrivals alone, no
  arrival is older than the first one, and none from fusion older than an earlier
  one from elsewhere: `HistoryOrderedByArrivals`. The two branches of `insertTarget`
  that shift reports are never taken, for any list: `NeverShifts`.
- Associated data: a wait group is used again, by adding a table, before those it
  released have left it, which makes `Wait` or `Add` panic. A thread panics in some
  interleaving, and the caller in some other, exactly if there are three tables or
  more and one other than the last reports the end of its backlog: `PanicIff`,
  `ReusedTooSoon`. So every run that can go no further has closed the channel
  exactly if that is not so: `AlwaysClosesIff`. A run without panic always closes
  it, and the completion marker is in its place in any case.
- Tables of associated data are added while the first threads run. Items that
  follow a backlog come after all backlogs in every interleaving exactly if no
  table with such items is added before a table with a backlog: `BarrierIff`,
  `HurriedRun`. These results, and those before, are for any list of tables;
  none of the default tables (tms/db/tableInfo.go:17-96) is marked as containing
  associated data.
- A list of the first tracks by name stays sorted exactly if a track that is
  added is turned away, is new, or comes with a name that fits where it stood
  before: `SortedKeptIff`, `RenamedUnsorts`.
- An AIS report whose fields are within their widths comes back from its payload
  exactly if its coordinates are below their sign bits and its last field is zero, because the range in which
  the last field is read ends with the first bit of the last character:
  `RoundTripIff`, `LastBitsAreLost` with `LastBitFits`.
- A GLL record comes back from the wire exactly if it starts with a dollar sign
  and has a talker of two characters and field texts that are not empty, where
  neither holds a start character or a star, and the texts no comma:
  `SentenceSurvivesIff`. A record that starts with an exclamation mark comes back
  with a dollar sign: `ExclamationBecomesDollar`.
- An identifier with a serial comes back from its string exactly if its seconds
  are an unsigned 32 bit number and its counter is not negative, and reading
  panics otherwise; one without comes back exactly if it has no producer either:
  `StringIDReadsIff`, `WithProducer`.
- Serial numbers of one run differ, with a clock that does not go back, exactly
  if no second sees more than 2^32 calls: `DistinctIff`, `TooManyCalls`. A clock
  that does go back repeats them: `ClockGoesBack`.

## Model

| member | source | states |
|---|---|---|
| `TimeoutHeaps.TimeoutHeap.constructor` | tms/db/timeout_heap.go:28-35 | A new heap is valid and holds nothing. |
| `TimeoutHeaps.TimeoutHeap.Peek` | tms/db/timeout_heap.go:38-43 | Gives an entry with a least deadline among all entries, or none exactly when the heap is empty. |
| `TimeoutHeaps.TimeoutHeap.Upsert` | tms/db/timeout_heap.go:46-58 | The map from identifier to entry changes at the given identifier only, whichever way its deadline moves; the index stays the inverse of the positions and the array stays a heap. |
| `TimeoutHeaps.TimeoutHeap.Exists` | tms/db/timeout_heap.go:61-64 | Tells whether the map has the identifier. |
| `TimeoutHeaps.TimeoutHeap.Swap` | tms/db/timeout_heap.go:77-81 | Exchanges two positions and keeps the index their inverse. |
| `TimeoutHeaps.TimeoutHeap.Push` | tms/db/timeout_heap.go:84-89 | Appends an entry and indexes it. |
| `TimeoutHeaps.TimeoutHeap.Pop` | tms/db/timeout_heap.go:92-99 | Takes the last entry off, from the array, the index and the map. |
| `TimeoutHeaps.TimeoutHeap.HeapPush` | tms/db/timeout_heap.go:54-57 | Pushing with sifting up keeps the array a heap and adds one entry to the map. |
| `TimeoutHeaps.TimeoutHeap.HeapPop` | tms/db/track_timeouts.go:170-171 | Removes and returns an entry with a least deadline, and only that. |
| `TimeoutHeaps.TimeoutHeap.PopBefore` | tms/db/misc_data_timeout.go:112-145 | The popping loops: what leaves comes in deadline order, each entry once, all of it due, and nothing due stays. |
| `TimeoutHeaps.TimeoutHeap.Fix` | tms/db/timeout_heap.go:47-52 | After one entry was replaced, sifting makes the array a heap again without changing the map. |
| `TimeoutHeaps.TimeoutHeap.Up` | tms/db/timeout_heap.go:54-57 | The loop that sifts up does to the array what `SiftUp` says, and keeps the index. |
| `TimeoutHeaps.TimeoutHeap.Down` | tms/db/timeout_heap.go:47-52 | The loop that sifts down does to the array what `SiftDown` says, tells whether it moved anything, and keeps the index. |
| `TimeoutHeaps.RootIsLeast` | tms/db/timeout_heap.go:38-43 | In a heap no deadline is before that of the root. |
| `TimeoutHeaps.SiftUpOrders` | tms/db/timeout_heap.go:54-57 | Sifting up repairs a heap with one wrong edge. |
| `TimeoutHeaps.SiftDownOrders` | tms/db/timeout_heap.go:47-52 | Sifting down repairs everything below a position, and the edge above it once something moved. |
| `TimeoutHeaps.PopOrders` | tms/db/track_timeouts.go:170-171 | Swapping the root to the end and sifting down leaves a heap in front of it. |
| `TrackTimeouts.StaticTimeout.constructor` | tms/db/track_timeouts.go:44-59 | A new stage has its timeout and no deadlines. |
| `TrackTimeouts.StaticTimeout.NextTimeoutIn` | tms/db/track_timeouts.go:149-164 | The wait ends at the earliest deadline, at once if that has passed, and is five seconds without deadlines. |
| `TrackTimeouts.StaticTimeout.SendTimeouts` | tms/db/track_timeouts.go:167-181 | Ends; entries leave in deadline order, each once, each due at its own clock reading; what stays was not due at the last reading. |
| `TrackTimeouts.TimedOutIsExact` | tms/db/track_timeouts.go:167-181 | With a clock that does not go back, everything due at the first reading is sent, nothing is sent that is not due at the last one, and the rest is not due at the last one. |
| `TrackTimeouts.StaticTimeout.UpdateDeadlines` | tms/db/track_timeouts.go:184-239 | The status is unknown exactly without a track, timeout exactly if a target forces it or the deadline has passed; the heap changes at this track only, and only when it is current. |
| `TrackTimeouts.FurthestIsGreatest` | tms/db/track_timeouts.go:190-224 | The reference value is the greatest deadline any target gives on its own, or the epoch. |
| `TrackTimeouts.DeadlineMeetsBound` | tms/db/track_timeouts.go:190-224 | Against any bound on the targets' deadlines, the loop ends at the bound exactly if some target attains it and no later one lowers it. |
| `TrackTimeouts.DeadlineIsFurthestIff` | tms/db/track_timeouts.go:190-224 | The deadline is never past the furthest one, and equal to it exactly if no target lowers it. |
| `TrackTimeouts.DeadlineCanBeLowered` | tms/db/track_timeouts.go:215-220 | For every timeout there are targets whose deadline falls short of the furthest one. |
| `TrackTimeouts.OneTargetLasts` | tms/db/track_timeouts.go:193-227 | What one target means for its track: timed out at once if lost or by hand; else kept for the timeout after the update if repeated, and for the timeout after the report itself if not. |
| `TrackTimeouts.StaticTimeout.Handle` | tms/db/track_timeouts.go:88-146 | The loop, on any events, makes a run of the stage's state machine and ends in its last state. |
| `TrackTimeoutRuns.TrackedAlways` | tms/db/track_timeouts.go:88-239 | Over every run, a track the client was last told is current has an entry, for that very update. |
| `TrackTimeoutRuns.FiringIsOnceIff` | tms/db/track_timeouts.go:167-181 | A timer event tells no timeout twice exactly if none of the entries it pops is of a track last told timed out. |
| `TrackTimeoutRuns.SettledAlways` | tms/db/track_timeouts.go:88-239 | If updates tell of a timeout only when refused and first, no entry is ever of a track last told timed out, whatever the timer does. |
| `TrackTimeoutRuns.ToldTwice` | tms/db/track_timeouts.go:193-227 | For any other updates there is a run with the first of them, and at most one timer event, that tells a timeout twice; its clock does not go back if that of the updates does not. |
| `TrackTimeoutRuns.NeverTwiceIff` | tms/db/track_timeouts.go:88-239 | No run with given updates, with a clock that does not go back, tells a timeout twice exactly if these tell of one only when timed out on arrival and first about their track. |
| `TrackTimeoutRuns.LostIsToldTwice` | tms/db/track_timeouts.go:201-203 | A fresh track that is then reported lost is such a case. |
| `TrackTimeoutAnswers.HoldsNewest` | tms/db/track_timeouts.go:88-239 | Over every run, the deadline held for a track is that of its newest update that was not timed out on arrival, and is held until its timeout is told. |
| `TrackTimeoutAnswers.AnswersUpdates` | tms/db/track_timeouts.go:88-146 | Over every run, each update is sent on, as a timeout exactly if it is timed out on arrival and as it came otherwise. |
| `TrackTimeoutAnswers.AnswersTimer` | tms/db/track_timeouts.go:167-181 | Over every run, a timer event tells only timeouts that are pending and due when the clock is read for them, each once, and all that are due when it is read last. |
| `MiscTimeouts.MiscTimeout.constructor` | tms/db/misc_data_timeout.go:17-27 | Both heaps of a new stage are empty. |
| `MiscTimeouts.MiscTimeout.NextIn` | tms/db/misc_data_timeout.go:74-106 | The wait for one heap ends at its earliest deadline, at once if that has passed, and is five seconds for an empty heap. |
| `MiscTimeouts.MiscTimeout.WaitFor` | tms/db/misc_data_timeout.go:39-46 | The timer sleeps past no deadline of either heap, and its wait is up to one of them, or the five seconds if one of the heaps is empty. |
| `MiscTimeouts.MiscTimeout.SendTimeouts` | tms/db/misc_data_timeout.go:108-146 | Creations due are announced as current, then expirations due as timeouts, each heap in deadline order; right after it neither heap holds a due entry. |
| `MiscTimeouts.MiscTimeout.UpdateDeadlines` | tms/db/misc_data_timeout.go:148-185 | An object is passed on at once exactly if it is created and not expired; the exact new contents of both heaps. What these come to over runs is stated by `MiscTimeoutRuns.PendsNewest`, `PendsComing` and `AnswersAlways`. |
| `MiscTimeouts.MiscTimeout.Handle` | tms/db/misc_data_timeout.go:29-72 | The loop, on any events, makes a run of the stage's state machine and ends in its last state. |
| `MiscTimeouts.PunctualAlways` | tms/db/misc_data_timeout.go:108-185 | Over every run, nothing about a version is sent before its creation, it is passed on only before its expiration, and announced as timed out only after it. |
| `MiscTimeouts.TimerKeepsClientIff` | tms/db/misc_data_timeout.go:108-146 | A timer event keeps an expiration pending for everything last told current exactly if every creation due has one. |
| `MiscTimeouts.ClientCoveredIff` | tms/db/misc_data_timeout.go:29-72 | Over every run, everything the client was last told is current has its expiration pending all along exactly if that is so at every timer event. |
| `MiscTimeouts.TimerKeepsCoveredIff` | tms/db/misc_data_timeout.go:108-146 | A timer event keeps an expiration pending for everything last told current and everything about to be created exactly if every creation still to come has one that is not due. |
| `MiscTimeouts.CoveredIff` | tms/db/misc_data_timeout.go:29-72 | Over every run, everything last told current and everything about to be created has its expiration pending all along exactly if all timer events are of that kind. |
| `MiscTimeouts.PatientIsCovered` | tms/db/misc_data_timeout.go:29-72 | If no version of an identifier expires before one is created, both hold at any clock readings. |
| `MiscTimeouts.ForgottenExpiration` | tms/db/misc_data_timeout.go:152-182 | A family of runs of four events after which an object was last told current and has no expiration pending: that was overwritten by a short-lived version and popped with it. |
| `MiscTimeoutRuns.PendsNewest` | tms/db/misc_data_timeout.go:148-185 | Over every run, an expiration is pending exactly if a version came that was not over and every timer event since found one that was not; and it is that of the newest version received. |
| `MiscTimeoutRuns.PendsComing` | tms/db/misc_data_timeout.go:148-160 | Over every run, a creation is pending exactly if no timer event has reached it since, and it is that of the newest version that came before its creation. |
| `MiscTimeoutRuns.AnswersAlways` | tms/db/misc_data_timeout.go:29-185 | Over every run, what each event sends, by the events alone: an object as it came if it is created and not expired; at a timer event, each once, the versions whose pending creation is due and the newest versions whose awaited expiration is over, and nothing else. |
| `MiscTimeoutRuns.ToldIff` | tms/db/misc_data_timeout.go:108-185 | If no other version follows, the first timer event after the expiration of a version tells its timeout, with that version, exactly if it was not over on arrival or one was awaited. |
| `MiscTimeoutRuns.ToldInTime` | tms/db/misc_data_timeout.go:108-185 | So it does for an object the client was last told is current, where the expirations of such objects are pending. |
| `MiscTimeoutRuns.NeverTold` | tms/db/misc_data_timeout.go:108-185 | A family of runs of six events in which such an object, whose expiration was forgotten, is replaced by a version that is over, and no timeout is told. |
| `Viewports.Viewport.constructor` | tms/db/viewport.go:72-79 | A new viewport shows nothing and is not in heatmap mode. |
| `Viewports.Viewport.Send` | tms/db/viewport.go:219-231 | A message carries the counts of its moment, and joins the log at the end. |
| `Viewports.Viewport.Process` | tms/db/viewport.go:101-112 | Heatmap features are ignored in heatmap mode, unknown statuses always; otherwise the exact marks, counts and messages of an update or a timeout, and if the heatmap starts, the messages that brings. |
| `Viewports.Viewport.Update` | tms/db/viewport.go:162-186 | Exact marks, counts and messages, and if the heatmap starts, the messages that brings; a feature that leaves the bounds is sent once more as current. |
| `Viewports.Viewport.Add` | tms/db/viewport.go:188-202 | The same for a feature not seen before, which enters the total. |
| `Viewports.Viewport.Remove` | tms/db/viewport.go:204-217 | A timeout takes the mark and its part of the counts away, and is sent exactly if the feature was visible; it never starts the heatmap. |
| `Viewports.Viewport.ChangeCount` | tms/db/viewport.go:241-251 | Below the threshold only the count changes; at it the heatmap starts, as `StartHeatmap` says. |
| `Viewports.Viewport.StartHeatmap` | tms/db/viewport.go:244-250 | The start is told, and then a heatmap of the features within the bounds, or that the mode stopped and one message for each of them, in order; with the marks as they were, or all right. |
| `Viewports.Viewport.StopHeatmap` | tms/db/viewport.go:253-263 | Ends, without starting the heatmap again; marks and count are exactly those of the features within the bounds; the stop is told and then one message for each of these, in the order of the collection. |
| `Viewports.Viewport.SendHeatmap` | tms/db/viewport.go:265-290 | The heatmap stays exactly if more heatmap features than the stop threshold lie within the bounds, and then one message has cells that count each of them once; otherwise what `StopHeatmap` says. |
| `Viewports.Viewport.HeatmapCells` | tms/db/viewport.go:328-350 | Each cell holds the number of heatmap features within the bounds that lie in it, and the cells sum to the count. |
| `Viewports.Viewport.RevalidateAll` | tms/db/viewport.go:114-124 | Exactly what is told: without a start of the heatmap one message for each feature that came in or left, or is new and visible, in order; with one, those up to the feature that starts it, what that brings, and nothing more. Without heatmap every feature is marked by whether it lies within the bounds. |
| `Viewports.Viewport.Revalidate` | tms/db/viewport.go:126-138 | A feature not seen before is processed, any other rechecked; exact marks, counts and messages, also when it starts the heatmap. |
| `Viewports.Viewport.RevalidateKnown` | tms/db/viewport.go:139-156 | A feature that left is announced as having left, one that came in as current, with the new counts, after what a start of the heatmap brings; no other gets a message. |
| `Viewports.Viewport.SetBounds` | tms/db/viewport.go:81-93 | New bounds: without heatmap what `RevalidateAll` says; with it a heatmap for them is sent, or the mode is left, as `SendHeatmap` says. |
| `Viewports.Viewport.SendCounts` | tms/db/viewport.go:292-299 | A count message goes out exactly if the counts differ from those last sent. |
| `Viewports.Viewport.Tick` | tms/db/viewport.go:301-309 | Outside heatmap mode only changed counts are sent; within it a fresh heatmap is sent, or the mode is left, as `SendHeatmap` says. |
| `Viewports.Viewport.Run` | tms/db/viewport.go:81-309 | Over every run on stable collections: the count is that of counted identifiers marked visible, the total that of those known, every event is told exactly as stated for its operation, and heatmap mode is entered and left in turn. |
| `Viewports.Viewport.React` | tms/db/viewport.go:81-309 | One event of a run, with what it tells. |
| `Viewports.TellsInMode` | tms/db/viewport.go:81-309 | What any event tells keeps starts and stops of the heatmap in turn, and heatmaps between them. |
| `Viewports.Setting.HeatCellsAreMapped` | tms/db/viewport.go:328-350 | The cells of a heatmap have each heatmap feature within the bounds once, and sum up to their number. |
| `Viewports.Setting.FreshScan` | tms/db/viewport.go:253-263 | A scan that starts with nothing marked visible tells exactly the features within the bounds, in order, and counts the counted ones of them. |
| `Viewports.Setting.ScanEnds` | tms/db/viewport.go:114-156 | With room below the start threshold one scan suffices; it marks every feature and counts exactly what lies within the bounds. |
| `Viewports.Setting.RestartNeverEnds` | tms/db/viewport.go:253-263 | Without that room, no depth of nested calls is enough. |
| `Viewports.Setting.RestartEndsIff` | tms/db/viewport.go:241-290 | Stopping the heatmap ends at some depth of calls exactly if the counted features within the bounds are fewer than the start threshold. |
| `Viewports.Setting.StableWhenCountedIsHeated` | tms/db/viewport.go:385-441 | When exactly the heatmap features are counted and the thresholds leave a gap, that holds for every collection and all bounds. |
| `Viewports.AllStableWhenCountedIsHeated` | tms/db/viewport.go:385-441 | So every run is on stable collections then. |
| `Viewports.HeatmapFlickers` | tms/db/viewport.go:241-263 | With any thresholds, as many counted features within the bounds as start the heatmap, and not belonging in it, make it start and stop for ever. |
| `Viewports.ThresholdsCross` | tms/db/featuresdb_impl.go:233-242 | With a start count that is not above the stop count, so do as many heatmap features as start it. |
| `TrackStore.InsertPos` | tms/db/track_merge.go:375-411 | The first position whose report the new one may stand before, and the front when there is none. |
| `TrackStore.CopyOpensGap` | tms/db/track_merge.go:420-424 | Appending, copying over an overlap and overwriting is insertion at that position. |
| `TrackStore.Insert` | tms/db/track_merge.go:367-441 | The position search, the copies and the replacement compute exactly the insertion, and tell whether anything changed. |
| `TrackStore.NeverShifts` | tms/db/track_merge.go:428-435 | Whatever the list, a report that replaces the one in front belongs in front, so no shifting branch is taken. |
| `TrackStore.HistoryKeepsAll` | tms/db/track_merge.go:420-424 | With history, an insertion leaves all before and behind the position as it was and adds the report. |
| `TrackStore.HistoryIsEverything` | tms/db/track_merge.go:367-424 | After any arrivals, a history is a permutation of them. |
| `TrackStore.OrderKeptIff` | tms/db/track_merge.go:373-424 | An arrival keeps a history newest first exactly if it is timely. |
| `TrackStore.HistoryOrderedIff` | tms/db/track_merge.go:367-424 | Over every run the history is newest first all along exactly if every arrival is timely. |
| `TrackStore.TimelyIff` | tms/db/track_merge.go:373-424 | Every arrival of a run is timely exactly if none is older than the first, and none from fusion older than an earlier one from elsewhere. |
| `TrackStore.HistoryOrderedByArrivals` | tms/db/track_merge.go:367-424 | So the history is newest first all along exactly if that holds of the arrivals. |
| `TrackStore.LateGoesFirst` | tms/db/track_merge.go:408-424 | An arrival older than all of a history goes to its front, which is then out of order. |
| `TrackStore.HistoryUnsorts` | tms/db/track_merge.go:408-424 | A run of two reports after which the history is out of order. |
| `TrackStore.TimelyWithoutFusion` | tms/db/track_merge.go:373-411 | Without fusion reports timely means no older than the oldest report stored. |
| `TrackStore.LatestOnly` | tms/db/track_merge.go:367-441 | Without history, after any arrivals the list is exactly the first to arrive among those with the greatest time. |
| `TrackMerge.TrackMerger.constructor` | tms/db/track_merge.go:83-126 | A new merger has no streams and no tracks, and sends at once exactly if it keeps no history. |
| `TrackMerge.TrackMerger.Drain` | tms/db/track_merge.go:253-302 | One message changes counts and tracks as its kind and channel say, and sending starts exactly when setup is done and no backlog is left. |
| `TrackMerge.TrackMerger.Object` | tms/db/track_merge.go:305-332 | An update is merged into its own track only; a track goes out exactly if it changed, holds a target and sending has started. What the client gets to see by it is stated by `MergeOutput.ClientIsUpToDate` and `EveryChangeIsSent`. |
| `TrackMerge.TrackMerger.InsertAll` | tms/db/track_merge.go:318-329 | All reports of an update are inserted in order, and a change of any of them is noticed. |
| `TrackMerge.TrackMerger.SendTrack` | tms/db/track_merge.go:585-609 | Without merging, a track is passed on and remembered unless it is older than the last; with merging it is sent if it has a target and sending has started. |
| `TrackMerge.TrackMerger.SendAll` | tms/db/track_merge.go:566-582 | Every stored track is sent exactly once, in some order, and then the marker. |
| `TrackMerge.LatestTime` | tms/target_track_utils.go:242-257 | The time of a track is not before that of any of its reports, and is that of one of them or the start. |
| `TrackMerge.TimeOfIsLatest` | tms/target_track_utils.go:242-257 | So the time of a track is the latest of all its targets and metadata, or the zero time. |
| `TrackMerge.StoredIsArrived` | tms/db/track_merge.go:305-357 | After any updates, the targets of a track, and its metadata, are what its own arrivals leave, in their order, and nothing of other tracks. |
| `TrackMerge.StoresFirstLatest` | tms/db/track_merge.go:305-441 | Without history a track stores exactly the first latest of all targets, and of all metadata, that ever arrived for it. |
| `TrackMerge.StoresEverything` | tms/db/track_merge.go:305-424 | With history a track stores exactly the targets, and the metadata, that ever arrived for it. |
| `TrackMerge.SentTimesNeverGoBack` | tms/db/track_merge.go:305-332 | Without history, whatever arrives, the times sent for one track never go back. |
| `MergeProtocol.ReceivedCounts` | tms/db/track_merge.go:253-302 | A message changes the two counts as its kind says; starting to send changes neither. |
| `MergeProtocol.NextKeepsInv` | tms/db/track_merge.go:153-302 | Every step of every thread keeps the invariant that ties the counts to the phases of the streams and the merged updates to what was read. |
| `MergeProtocol.InvAlways` | tms/db/track_merge.go:153-302 | The invariant holds all along every interleaving. |
| `MergeGuarantees.SwitchingIsCounted` | tms/db/track_merge.go:176-183 | While a stream switches from backlog to live it is counted on a channel, so the counts are never both zero. |
| `MergeGuarantees.ClosesSafely` | tms/db/track_merge.go:208-231 | In every interleaving the loop ends only after setup and when every stream has closed, with every update of every stream merged in order; and no stream is about to send on a closed channel. |
| `MergeGuarantees.NothingLostOrReordered` | tms/db/track_merge.go:153-332 | At any moment the updates merged of a stream are those it read, in order, but for the one it holds; and the tracks are what those updates leave. |
| `MergeGuarantees.NoDeadlock` | tms/db/track_merge.go:153-302 | Until the loop has ended some thread can take a step. |
| `MergeGuarantees.StepsCountDown` | tms/db/track_merge.go:153-302 | Every step but a tick of the status timer lowers a measure. |
| `MergeGuarantees.AlwaysFinishes` | tms/db/track_merge.go:208-231 | Runs are bounded by the inputs, and a run that can go no further has ended with the merger closed down. |
| `MergeGuarantees.BacklogsMerged` | tms/db/track_merge.go:295-301 | When setup is done and the backlog count is zero, the backlogs of all streams are merged. |
| `MergeGuarantees.StartsToSendOnce` | tms/db/track_merge.go:295-301 | With history, sending starts at one step: before it no track is out, at it all backlogs are merged and every stored track is sent exactly once and then the marker, and after it that marker never comes again. |
| `MergeGuarantees.FinishedHasSent` | tms/db/track_merge.go:253-302 | A merger that has left its loop has started to send. |
| `MergeGuarantees.FinishedHasSentOnce` | tms/db/track_merge.go:208-301 | With history, a merger that has finished has sent one burst, as above, and the marker at its end is the only one of the whole run. |
| `MergeGuarantees.AlwaysSends` | tms/db/track_merge.go:208-301 | So every run of a merger of histories that can go no further has had its burst and its one marker. |
| `MergeGuarantees.NeverGoesBack` | tms/db/track_merge.go:153-332 | Without history, in every interleaving, the times sent for one track never go back. |
| `MergeOutput.AcceptedIffChanged` | tms/db/track_merge.go:305-441 | A report is accepted exactly if the stored list changes: it gets longer with history, and newer without. |
| `MergeOutput.PictureOfAll` | tms/db/track_merge.go:305-332 | After any updates, the client was last sent what is stored: exactly that without merging, and with merging and sending on, for every track with a target. |
| `MergeOutput.EachChangeIsSent` | tms/db/track_merge.go:305-332 | With merging and without history, each update that changes a track with a target sends that track as it is then, once, and no other update sends anything. |
| `MergeOutput.ClientIsUpToDate` | tms/db/track_merge.go:153-332 | In every interleaving, the client was last sent what is stored: exactly that without merging, and with merging and sending on, for every track with a target. |
| `MergeOutput.EveryChangeIsSent` | tms/db/track_merge.go:305-332 | In every interleaving, with merging and sending on, each step that changes a track with a target sends that track as it is then, once, and no other step sends a track. |
| `MergeOutput.EveryUpdateIsPassed` | tms/db/track_merge.go:585-599 | In every interleaving, without merging, an update that is taken is sent on as it came, unless a newer one was the last sent for its track. |
| `MergeOutput.EveryStreamMarks` | tms/db/track_merge.go:176-183 | In every interleaving the output carries one marker for each stream that has told that its initial load is done. |
| `StreamCompress.LatestTrack.constructor` | tms/db/stream_compress.go:18-26 | A new queue is empty. |
| `StreamCompress.LatestTrack.AppendTrack` | tms/db/stream_compress.go:92-102 | A track replaces the waiting one of its identifier in place, or joins at the end; the order lists exactly the waiting identifiers, each once. |
| `StreamCompress.LatestTrack.TakeFront` | tms/db/stream_compress.go:35-41 | The first waiting track leaves the order and the map. |
| `StreamCompress.LatestTrack.Process` | tms/db/stream_compress.go:28-90 | The loop makes a run; for every identifier, what was sent and what is pending is what arrived with superseded tracks left out, ending with the newest; and with enough room at the end nothing stays pending. The order between identifiers is stated by `StreamOrder.LeavesInTurn` and `ServedInTime`. |
| `StreamCompress.LatestTrack.Round` | tms/db/stream_compress.go:33-89 | One round takes the front if nothing is being sent, and then sends, stores or passes on. |
| `StreamCompress.ArrivalConflates` | tms/db/stream_compress.go:28-102 | An arrival that supersedes the waiting track, or joins what is pending, keeps this. |
| `StreamCompress.SentIsSubsequence` | tms/db/stream_compress.go:28-90 | So what was sent is a subsequence of what arrived, and is up to date once nothing is pending. |
| `StreamOrder.LeavesInTurn` | tms/db/stream_compress.go:34-40 | In every run waiting identifiers leave in the order in which they began to wait, a superseding track keeping the place; what is taken is the latest track of the identifier. |
| `StreamOrder.ServedInTime` | tms/db/stream_compress.go:28-90 | In every run, whatever arrives, an identifier with k others waiting for longer is sent before the output has had room k + 2 times. |
| `StreamOrder.SendsWheneverPossible` | tms/db/stream_compress.go:42-88 | In every run the output gets a track whenever it has room and something is pending, or takes an arrival at once and nothing is, and only then. |
| `AssociatedData.NextKeepsInv` | tms/db/registry_associated.go:35-92 | Every step of every thread, and of the caller that adds tables, keeps the two counts equal to the outstanding backlogs and the running threads, the waiters and their releases in order, and the channel equal to what was read. |
| `AssociatedGuarantees.ClosesSafely` | tms/db/registry_associated.go:60-89 | In every interleaving the counts never go below zero; the channel is closed only when every thread is gone, none having panicked, and every item of every table is on it, in order; and no thread is about to send on a closed channel. |
| `AssociatedGuarantees.OneMarkerAfterBacklogs` | tms/db/registry_associated.go:82-89 | The channel carries the marker at most once, exactly once when it is closed, and after every backlog item of every table. |
| `AssociatedGuarantees.CloserWakesSafely` | tms/db/registry_associated.go:82-83 | The closing thread never panics as it wakes up. |
| `AssociatedGuarantees.NoDeadlock` | tms/db/registry_associated.go:60-89 | Until the channel is closed or somebody has panicked, some thread can take a step. |
| `AssociatedGuarantees.ActionsCountDown` | tms/db/registry_associated.go:35-92 | Every step of every thread lowers a measure. |
| `AssociatedGuarantees.PanicLasts` | tms/db/registry_associated.go:58-70 | After a panic the channel is never closed. |
| `AssociatedGuarantees.ClosesOrPanics` | tms/db/registry_associated.go:35-92 | Runs are bounded by the tables, and the last state of a run has a closed channel exactly if nothing can move and nobody has panicked. |
| `AssociatedGuarantees.CalmAlways` | tms/db/registry_associated.go:58-70 | Without the hazard, waiters are released only once all tables are added, and nobody panics. |
| `AssociatedGuarantees.AlwaysCloses` | tms/db/registry_associated.go:60-89 | Without the hazard a run can go no further exactly if it has closed the channel. |
| `AssociatedGuarantees.HazardPanics` | tms/db/registry_associated.go:58-70 | With the hazard there is an interleaving in which a thread panics as it wakes up, and one in which the caller panics as it adds a table. |
| `AssociatedGuarantees.PanicIff` | tms/db/registry_associated.go:58-70 | A thread panics in some interleaving exactly if there are three tables and one other than the last reports the end of its backlog; and so the caller. |
| `AssociatedGuarantees.ReusedTooSoon` | tms/db/registry_associated.go:58-70 | Three tables, of which two report the end of an empty backlog, are such a case. |
| `AssociatedGuarantees.AlwaysClosesIff` | tms/db/registry_associated.go:35-92 | Every run that can go no further has closed the channel exactly if there is no hazard. |
| `AssociatedGuarantees.BarrierHolds` | tms/db/registry_associated.go:64-70 | Whoever passes the barrier, all tables added before it have given up their backlogs. |
| `AssociatedGuarantees.Overtakes` | tms/db/registry_associated.go:58-70 | If a table with late items is added before one with a backlog, there is an interleaving in which late items overtake the backlog. |
| `AssociatedGuarantees.BarrierIff` | tms/db/registry_associated.go:58-70 | Late items come after all backlogs in every interleaving exactly if there are no such tables. |
| `AssociatedGuarantees.HurriedRun` | tms/db/registry_associated.go:58-70 | A reachable state with two tables in which a late item has overtaken a backlog. |
| `TrackSearch.LeqIsTotalOrder` | tms/client_api/extra.go:57-59 | Names are totally ordered by the comparison of bytes. |
| `TrackSearch.LessIsByFirstDifference` | tms/client_api/extra.go:57-59 | A name is before another exactly if it is a proper prefix of it, or has the smaller character where they first differ. |
| `TrackSearch.LeqIsByFirstDifference` | tms/client_api/extra.go:57-59 | A name may stand before another exactly if it is a prefix of it, or has the smaller character there. |
| `TrackSearch.TrackLimiter.constructor` | tms/db/track_search.go:16-23 | A new limiter holds nothing. |
| `TrackSearch.TrackLimiter.Add` | tms/db/track_search.go:25-64 | Panics exactly if it compares the name of a track without one; otherwise a track is turned away, takes its own place, joins or displaces the last one, and named tracks end up sorted. |
| `TrackSearch.TrackLimiter.AddAll` | tms/db/track_search.go:25-64 | Any additions of named tracks to a fresh limiter go through without panic; if identifiers keep their names it then holds, sorted, the max + 1 first names of the distinct identifiers added. |
| `TrackSearch.TrackLimiter.GetTracks` | tms/db/track_search.go:66-73 | The first of the tracks held, as many as are asked for or all. |
| `TrackSearch.AddKeeps` | tms/db/track_search.go:25-64 | An addition keeps what the limiter is to hold: distinct tracks of those seen, sorted, with no other seen before any of them. |
| `TrackSearch.SortedKeptIff` | tms/db/track_search.go:25-64 | An addition keeps the list sorted exactly if the track is turned away, is new, or fits by its name where it stood. |
| `TrackSearch.RenamedUnsorts` | tms/db/track_search.go:25-64 | A track that is added again under a later name stays in front, and the list is not sorted any more. |
| `TrackSearch.HoldsFirstNames` | tms/db/track_search.go:25-64 | In every sequence of lists that additions can make, with consistent names, the last is the max + 1 first names of the distinct identifiers seen, sorted. |
| `TrackSearch.ReturnsFirstNames` | tms/db/track_search.go:66-73 | So a search returns what sorting all and taking max would, by names. |
| `TrackSearch.Ranked` | tms/db/track_search.go:25-64 | The distinct identifiers seen can always be listed in the order of their names. |
| `TrackSearch.NamedNeverPanics` | tms/db/track_search.go:25-64 | Among named tracks an addition never compares a missing name. |
| `TrackSearch.TrackSearcher.constructor` | tms/db/track_search.go:82-110 | A search without a limit is for one track. |
| `TrackSearch.TrackSearcher.Handle` | tms/db/track_search.go:122-159 | A whole search, over any updates: if the tracks asked for have names it does not panic, and if identifiers keep their names its results are the first names, in order, of the distinct identifiers asked for. |
| `TrackSearch.WantedIff` | tms/db/track_search.go:122-150 | What a search adds are exactly the tracks of updates that are no timeouts, with a registry identifier asked for. |
| `Bits.Field` | tms/nmea/M13711_parser_gen.go:136-140 | The padding loop writes the binary digits of a number, after a minus sign if it is negative, filled up to a width with zeros in front. |
| `Bits.FieldInRange` | tms/nmea/M13711_parser_gen.go:136-234 | A number in range takes exactly its width, and its digits denote it. |
| `Ais.ArmourRoundTrip` | tms/nmea/M13711_parser_gen.go:259-265 | Every six-bit value is written as one character of the alphabet, which decodes to it. |
| `Ais.AlphabetDecodes` | tms/nmea/nmea_util.go:34-41 | Every character of the alphabet decodes to a six-bit value, which is armoured to it. |
| `Ais.ArmourIsOrdered` | tms/nmea/M13711_parser_gen.go:259-265 | Greater values get greater characters, which leaves one way to number the alphabet. |
| `Ais.Armour` | tms/nmea/M13711_parser_gen.go:236-266 | The grouping and armouring loops, for any digits and signs: what is written is what each group gives in turn, the last one with all that is left and the fill bits; a group is read as a saturated 8 bit number, and written as a character of one, two or three bytes. |
| `Ais.Cut` | tms/nmea/M13711_parser_gen.go:236-256 | The grouping loops cut the digits into groups of six, and put all that is left and the fill bits in the last one. |
| `Ais.ParseOfBits` | tms/nmea/M13711_parser_gen.go:259 | Binary digits of any length are read as their number, or as 127 from there on. |
| `Ais.DearmourUndoes` | tms/nmea/M13711_parser_gen.go:236-266 | When the fill bits complete a group, every character is in the alphabet and the payload decodes to the digits and the fill. |
| `AisBits.Shift` | tms/nmea/nmea_util.go:55-70 | The shifts of each character, for any range, in the 64 bit arithmetic of the shift counts. |
| `AisBits.Gather` | tms/nmea/nmea_util.go:53-73 | The loop takes the characters of a range in turn, and leaves out those beyond the end. |
| `AisBits.GetsRange` | tms/nmea/nmea_util.go:48-74 | Where every character stands for six bits, what is gathered of a range is the number in its bits, bits beyond the end read as zero; nothing for an empty range, and for one wider than 32 bits its last 32 bits without those of its first character. |
| `AisBits.BitsToInt` | tms/nmea/nmea_util.go:48-74 | For any bytes the result is what shifting and or-ing the characters of the range gathers, and where every character stands for six bits it is the number in the bits of the range. |
| `AisReport.Write` | tms/nmea/M13711_parser_gen.go:136-234 | The fields are written one after the other, whatever their numbers. |
| `AisReport.EncodePayload` | tms/nmea/M13711_parser_gen.go:107-266 | Another message identifier is an error; otherwise the payload is what armouring makes of the digits of the report, signs and numbers that are too wide included. |
| `AisReport.Parse` | tms/nmea/M13711_parser_gen.go:53-101 | For any bytes: another first character is an error; otherwise each field is what its bit range gives, signs and flags converted. |
| `AisReport.ReportStarts` | tms/nmea/M13711_parser_gen.go:70-98 | The widths `Encode` writes put every field where `parse` reads it. |
| `AisReport.FieldsLie` | tms/nmea/M13711_parser_gen.go:136-234 | Every field of a report that fits lies in the bits the standard gives it. |
| `AisReport.ParsedMeans` | tms/nmea/M13711_parser_gen.go:70-97 | For any payload whose characters stand for six bits, every field but the last is the number in its bits, three of them as signed numbers, and single bits as flags. |
| `AisReport.RoundTrip` | tms/nmea/M13711_parser_gen.go:53-266 | A report that fits comes back from its payload but for signs of the coordinates and the last field, and how those come back. |
| `AisReport.RoundTripIff` | tms/nmea/M13711_parser_gen.go:53-266 | It comes back exactly if its coordinates are below their sign bits and its last field is zero. |
| `AisReport.LastFieldOfAny` | tms/nmea/M13711_parser_gen.go:98 | What the last field is for a payload of any length. |
| `AisReport.LastBitsAreLost` | tms/nmea/M13711_parser_gen.go:53-266 | Every report with coordinates below their sign bits and a last field below 32 is sent without fill as a payload that is read with zero there. |
| `AisReport.LastBitFits` | tms/nmea/M13711_parser_gen.go:136-234 | One such report, with one in its last field. |
| `Texts.SplitAppends` | tms/nmea/nmea.go:94-98 | A separator and a text without separators add exactly one piece. |
| `NmeaFields.Encode` | tms/nmea/GLL_parser_gen.go:170-277 | The rendering of fields by what was written last, for any list of text and number fields. |
| `NmeaFields.WrittenIsPlain` | tms/nmea/GLL_parser_gen.go:172-266 | It writes every field after a comma of its own, running one comma ahead after an absent field. |
| `NmeaFields.EncodedIsPlain` | tms/nmea/GLL_parser_gen.go:170-277 | In the end it is the plain form, but that an absent last field after a present one is left out. |
| `NmeaFields.Parse` | tms/nmea/GLL_parser_gen.go:78-159 | Fields are read by position as far as they go; an empty one is absent, a number that does not parse is an error. |
| `NmeaFields.FieldsRoundTrip` | tms/nmea/GLL_parser_gen.go:78-277 | For any schema and any pattern of presence, splitting and reading what was rendered restores every value and every absence. |
| `NmeaSentence.Checksum` | tms/nmea/nmea.go:127-142 | The exclusive or of all but the start character, as two upper-case hexadecimal digits after the separator. |
| `NmeaSentence.SumOk` | tms/nmea/nmea.go:111-125 | The check is against the exclusive or of what comes before the first separator. |
| `NmeaSentence.XorIsParity` | tms/nmea/nmea.go:111-142 | Each bit of the sum is the parity of that bit over the characters. |
| `NmeaSentence.HexDenotes` | tms/nmea/nmea.go:117-120 | The two digits denote the sum. |
| `NmeaSentence.FrameComesBack` | tms/nmea/nmea.go:44-108 | Talker, fields and checksum are found again in a framed sentence without further marks. |
| `NmeaSentence.SendableSurvives` | tms/nmea/GLL_parser_gen.go:70-285 | A sendable record comes back from the wire as it was. |
| `NmeaSentence.ReadAsSendable` | tms/nmea/nmea.go:84-99 | With either start character a record sendable otherwise is read as the sendable one. |
| `NmeaSentence.ExclamationBecomesDollar` | tms/nmea/nmea.go:84-99 | A record that starts with an exclamation mark comes back with a dollar sign, so it does not survive. |
| `NmeaSentence.SurvivorIsSendable` | tms/nmea/GLL_parser_gen.go:70-285 | Only sendable records do. |
| `NmeaSentence.SentenceSurvivesIff` | tms/nmea/GLL_parser_gen.go:70-285 | A record comes back from the wire exactly if it is sendable. |
| `Decimals.DecimalReads` | tms/target_track_utils.go:142-148 | A printed number is read back exactly if it is not negative and below 2^32; any other panics. |
| `Decimals.DecimalInjective` | tms/target_track_utils.go:130-136 | Different numbers are printed differently. |
| `TargetIds.FromTargetStringID` | tms/target_track_utils.go:150-184 | The loop over pairs fills the table of keys and values, and the identifier is what the table tells. |
| `TargetIds.SplitStringID` | tms/target_track_utils.go:122-140 | A string form splits into its keys and numbers. |
| `TargetIds.WithBoth` | tms/target_track_utils.go:122-184 | With serial and producer an identifier comes back in full or reading panics. |
| `TargetIds.WithSerial` | tms/target_track_utils.go:122-184 | So it does with a serial only. |
| `TargetIds.WithProducer` | tms/target_track_utils.go:122-184 | With a producer only, it comes back with neither. |
| `TargetIds.StringIDReadsIff` | tms/target_track_utils.go:122-184 | An identifier comes back from its string exactly if it is tellable. |
| `TargetIds.StringIDInjective` | tms/target_track_utils.go:122-140 | Different identifiers with serials have different strings, also where reading would panic. |
| `TargetIds.DataInserter.constructor` | tms/db/inserter.go:74-96 | A new inserter has counted nothing. |
| `TargetIds.DataInserter.GenerateTargetTSN` | tms/db/inserter.go:411-434 | The counter goes up within a second and starts at one in another; the identifier carries source, second and counter. |
| `TargetIds.DataInserter.Generate` | tms/db/inserter.go:411-434 | Over a run, identifier k has source k and the serial that the clock readings up to k give. |
| `TargetIds.SerialCounts` | tms/db/inserter.go:411-434 | The counter is the number of calls in a row within the second, in 32 bits. |
| `TargetIds.DistinctIff` | tms/db/inserter.go:411-434 | With a clock that does not go back, all serials of a run differ exactly if no second sees more than 2^32 calls. |
| `TargetIds.TooManyCalls` | tms/db/inserter.go:411-434 | With 2^32 + 1 calls in a second the last serial is the first again. |
| `TargetIds.ClockGoesBack` | tms/db/inserter.go:411-434 | A clock that returns to a second gives a serial again. |
| `TargetIds.StringsDiffer` | tms/db/inserter.go:411-434 | When serials differ, so do the strings of their identifiers, for any producers. |
| `TargetIds.RunIsTellable` | tms/db/inserter.go:411-434 | With a clock that does not go back, within 2^32 seconds, and fewer than 2^31 calls a second, all identifiers of a run come back from their strings, and these differ. |
| `StripWhitespace.Strip` | tms/geojson/object.go:362-400 | The loop that counts backslashes and copies late gives the characters that are in strings or no whitespace, where strings are read escape by escape. |
| `StripWhitespace.RestSteps` | tms/geojson/object.go:366-391 | One character of the escape-by-escape reading is one round of the loop, an odd count of backslashes being a pending escape. |
| `StripWhitespace.AfterAll` | tms/geojson/object.go:362-400 | At the end the copy, or the text itself when nothing was dropped, is the filtered text. |
| `StripWhitespace.RolesKept` | tms/geojson/object.go:362-400 | Every character that stays keeps its role: the stripped text has the same strings, character by character. |
| `StripWhitespace.Idempotent` | tms/geojson/object.go:362-400 | Stripping again changes nothing. |
| `StripWhitespace.SameIff` | tms/geojson/object.go:362-400 | Two texts strip to the same exactly if they differ in whitespace outside strings only. |

## Left out

- Cancellation of contexts, real timers and tickers: clock readings are inputs, and nothing is cancelled.
- The merger's protocol assumes that all streams are added before setup is finished, that an input reports the end of its backlog at most once and sends neither start nor setup messages, and that the output channel is read; the draining of the unbuffered channels after they are closed finds nothing and is not modelled.
- TrackMerge.TrackMerger.Drain: when merging, requires that an update with reports has a track identifier, as the source dereferences a nil track otherwise; sent tracks are values, so that a track already sent does not change when its record in memory does.
- TrackStore.Insert: one model for insertTarget and insertMetadata, which are the same code on two types; targetReplaces and metadataReplaces always say yes. Times are whole nanoseconds, which supposes normalised timestamps.
- Viewports.Viewport.Process: geometry, and which features are counted or belong in the heatmap, are parameters; the collection is the same during one operation; where the heatmap may start, the collection has to be stable, which `RestartEndsIff` shows to be needed for the recursion to end.
- MiscTimeouts.MiscTimeout.SendTimeouts: times are whole nanoseconds, so that not after now is before now plus one.
- TrackSearch.TrackLimiter.Add: the library's sort is replaced by one of ours; the order of tracks with equal names is left open, as the library leaves it.
- StreamCompress.LatestTrack.Process: when the input closes the run just ends, and what is pending then is dropped, as in the source.
- AssociatedData.NextKeepsInv: after a panic of the caller the model stops, and a panic of a thread, which the group catches and answers by cancelling (gogroup/group.go:264-279), only stops that thread; an input reports the end of its backlog at most once, as the second time the count would go below zero; errors of the database end the request before any thread matters and are left out.
- AisReport.EncodePayload: requires fill bits for which the source does not index out of range; coordinates are whole numbers, as the source truncates them.
- AisReport.Parse: requires a payload that is not empty, as the source slices its first character; the envelope of AIS sentences is not modelled.
- NmeaSentence.FrameComesBack: sentences of AIS devices, which take a branch of their own; one character is one byte; the formatting and parsing of floating-point numbers is a parameter of which only the round trip is asked.
- TargetIds.FromTargetStringID: the packing of identifiers into two 64 bit numbers, and nil identifiers, would only add easy members; numbers are read as by strconv of Go 1.15.
- The other generated NMEA and AIS sentences follow the same templates; those with unsigned fields add one more comma after an absent field.
- Database access, command line tools, REST handlers, geodesy, Iridium and LRIT messages: input and output, or arithmetic on floating-point numbers.
