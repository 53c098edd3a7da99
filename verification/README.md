# bairelay: verified models

bairelay relays Reolink camera streams to RTSP and MQTT. This project models the parts of it where timing,
interleaving or arithmetic decide correctness, and proves what each of them promises, for every input, every
schedule and every run.

| file | what it models |
|---|---|
| `Prelude.dfy`, `Decimal.dfy` | options, saturating subtraction, sums; decimal numerals |
| `MediaPacer.dfy` | the per-source pacer loop and its re-anchor table, audio and video modes |
| `GapBridging.dfy` | the Live/Bridging policy, replay timestamps, and the driver that feeds it |
| `CameraLifecycle.dfy` | the stream registry, the connect/session/teardown task and the sweep, as one transition system |
| `CameraRuns.dfy` | what every schedule promises about its own steps: when the camera is dialled again, and what a call has seen before it starts a source |
| `CameraProgress.dfy` | that the task returns soon after a cancel, and that a call left to itself gets its answer |
| `CameraHandover.dfy` | what crosses sessions: sources left behind by a teardown, and schedules on which its promises fail |
| `PruneGrace.dfy` | the idle sweep over the registry and a source's fate under repeated sweeps |
| `OverflowLog.dfy` | the lock-free, window-deduplicated overflow warning |
| `PreviewAggregator.dfy` | the preview state with its two writers |
| `MotionHold.dfy` | the motion listener's wake-lock guard |
| `Streaks.dfy` | keepalive and battery failure streaks |
| `StatusRepublish.dfy` | status reporting, the republish cache and recovery from a broker wipe |
| `CivilDate.dfy`, `IsoTimestamp.dfy` | day number to civil date, and the UTC timestamp printed from it |
| `OutlineDilation.dfy` | the caption glyph's outline and fill passes |
| `PlacementScan.dfy` | the scan for misplaced top-level configuration keys |

Instants and durations are natural numbers of nanoseconds, unbounded unless a width matters; 32-bit timestamps,
the 32-bit year, the 64-bit day number, the 128-bit product and the byte arithmetic of blending are explicit.
Clock readings, network outcomes, scheduler lateness and the order of concurrent steps are inputs, so every
theorem holds for all of them. `dafny verify dfyconfig.toml` checks the whole project.

## Where the code falls short of its documentation

Each of these is proved with a concrete input and with the exact condition under which the documented behaviour holds.

- `civil_from_days` is documented as valid for every 64-bit day number, but narrows the year to 32 bits:
  `CivilDate.ConversionExactRange`, `CivilDate.ConversionWrapsInsideI64`.
- A time before the epoch with a fractional second is rounded toward the epoch, not down:
  `IsoTimestamp.SystemTimeRoundTrip`, `IsoTimestamp.PreEpochFractionRoundsUp`.
- The video schedule is documented never to drift, but a frame may be held up to 5 s while the future cap is 3 s:
  `MediaPacer.VideoDriftFreeIff`, `MediaPacer.VideoDurationExceedsCapIff`, `MediaPacer.VideoDriftsOnLongGap`.
- No duplicate `start_video` is meant ever to be issued, but one can go out while the first source is only listed for
  stopping by a drain: `CameraLifecycle.StartDuplicatesIff`, `CameraLifecycle.NoDuplicateIff`,
  `CameraHandover.DuplicateStartReachable`.
- No reader is meant to outlive its camera connection, but a source started late is served to the next session:
  `CameraHandover.OldSessionGoneIff`, `CameraHandover.StaleSourceServed`.
- The final drain is meant to leave no stream source behind, but a caller that has already read the camera slot can
  register one afterwards: `CameraHandover.RegistryStaysEmptyIff`, `CameraHandover.RunCanReturnUnderACaller`.
- The aggregator is documented not to touch the connect loop's Connecting, but does when its bookkeeping still claims
  an earlier downgrade: `PreviewAggregator.ConnectingKeptIff`, `PreviewAggregator.StaleClaimUpgrades`.
- The aggregator is documented to pass Sleeping through, but overwrites it when the connect loop writes it between the
  aggregator's read and its write: `PreviewAggregator.SleepingSurvivesIff`, `PreviewAggregator.SleepingCanBeLost`.
- The overflow warning is documented as at most one per 60 s; a line stamped zero opens no window, so another may
  follow while the clock, or a reading still in flight, is within the first 60 s:
  `OverflowLog.NextLineSpacedIff`, `OverflowLog.ZeroStampOpensNoWindow`.
- A broker wipe is meant to be undone on reconnect, but a motion topic still at its startup "unknown" is left with no
  retained message: `StatusRepublish.MotionRecoversIff`, `StatusRepublish.UnknownIsNotRestored`,
  `StatusRepublish.StartupUnknownLost`.

## Model

| member | source | states |
|---|---|---|
| `MediaPacer.MediaPacerTask` | src/stream_source.rs:871-917 | the loop emits a prefix of the uncancelled run, in order and at its instants; nothing leaves at or after a cancellation, and a frame is withheld only if its instant is not before one |
| `MediaPacer.CapUnreachable` | src/stream_source.rs:932-945 | in either mode and for any scheduler lateness, an item no longer than the cap never sends its successor into the future-cap branch |
| `MediaPacer.EmitsInOrder` | src/stream_source.rs:871-915 | no frame leaves before its slot, before it arrived, or before its predecessor, and beyond those only by the lateness of the scheduler |
| `MediaPacer.CapReleasesAtOnce` | src/stream_source.rs:919-945 | in either mode a frame that meets the future cap leaves at once, and the schedule starts again from there |
| `MediaPacer.VideoScheduleIff` | src/stream_source.rs:836-851 | under any lateness every video slot is the first slot plus the durations so far, if and only if no turn of the run took the future cap |
| `MediaPacer.VideoDriftFreeIff` | src/stream_source.rs:836-945 | with an ideal clock and ordered arrivals the slots never drift if and only if, by arrivals and durations alone, each item is due within the lead of its arrival or follows one no longer than the lead |
| `MediaPacer.VideoNeverDrifts` | src/stream_source.rs:836-851 | for any arrivals and lateness and durations within the cap, the n-th slot is first arrival plus latency plus the sum of durations |
| `MediaPacer.VideoEmission` | src/stream_source.rs:871-945 | with an ideal clock a video frame leaves at the later of its slot and its arrival |
| `MediaPacer.AudioSlot` | src/stream_source.rs:871-945 | under any lateness the first audio slot is the latency after the first frame, each later one the later of previous slot plus duration and now, and a frame leaves at its slot plus the wake lateness of its sleep, if it slept |
| `MediaPacer.AudioSpacing` | src/stream_source.rs:871-945 | under any lateness consecutive audio frames are a duration apart, less how late the first one was |
| `MediaPacer.AudioEmission` | src/stream_source.rs:871-945 | with an ideal clock the i-th audio emission is the maximum over k of start k plus the durations from k to i |
| `MediaPacer.AudioSpacingIff` | src/stream_source.rs:932-945 | with an ideal clock the earlier item's duration is kept if and only if the cap did not fire |
| `MediaPacer.AudioSpacingKeptIff` | src/stream_source.rs:856-945 | with an ideal clock every duration is kept if and only if, by arrivals and durations alone, each item is no longer than the lead or its successor comes soon enough |
| `MediaPacer.OverlongItemSnapsBack` | src/stream_source.rs:749-756 | a 2.5 s audio item makes its successor leave at the same instant |
| `MediaPacer.VideoDurationExact` | src/stream_translate.rs:831-847 | a video frame is held for its timestamp advance modulo 2^32, rounded down to the microsecond, and not at all if the advance is above 5 s or the frame is the first |
| `MediaPacer.VideoDurationExceedsCapIff` | src/stream_translate.rs:831-847 | a held video frame lasts at most 5 s, and exceeds the 3 s cap exactly for timestamp gaps above 270 000 and up to 450 000 ticks |
| `MediaPacer.VideoDriftsOnLongGap` | src/stream_translate.rs:831-847 | a 4 s timestamp gap inside a burst is skipped outright by the pacer |
| `GapBridging.BridgingPolicy.constructor` | src/gap_bridging.rs:60-68 | a new policy is Live with the countdown at its birth and nothing emitted |
| `GapBridging.BridgingPolicy.OnUpstreamPacket` | src/gap_bridging.rs:103-105 | the new state is the specified one: only the arrival time moves |
| `GapBridging.BridgingPolicy.OnBroadcast` | src/gap_bridging.rs:111-115 | the new state is the specified one: Live, anchored at the broadcast |
| `GapBridging.BridgingPolicy.OnTick` | src/gap_bridging.rs:132-145 | new state and replay decision are those of the specification |
| `GapBridging.BridgingPolicy.AdvanceReplayPts` | src/gap_bridging.rs:158-173 | the synthesised timestamp is the specified one and becomes the new anchor |
| `GapBridging.BridgingIffGapOpen` | src/gap_bridging.rs:103-145 | after any event sequence the source is bridging if and only if some tick since the last broadcast saw silence strictly above the threshold |
| `GapBridging.ReplaysIffGapOpen` | src/gap_bridging.rs:132-145 | a replay happens at exactly the ticks that find or leave a gap open and have something to replay |
| `GapBridging.DisabledNeverBridges` | src/gap_bridging.rs:40-43 | with the maximal duration as threshold no run ever bridges or replays |
| `GapBridging.AnchorsSetTogether` | src/gap_bridging.rs:49-173 | timestamp and wall clock are both set or both unset, and set exactly when something was broadcast or replayed |
| `GapBridging.FirstReplayIsAnchor` | src/gap_bridging.rs:147-173 | a source's first emission, if a replay, carries its anchor unchanged however old the source is, and the counters then hold that timestamp and the instant of the tick |
| `GapBridging.NeverSaturates` | src/gap_bridging.rs:160-163 | no duration makes the 128-bit product saturate, so the tick count is the exact floor |
| `GapBridging.NothingElseLost` | src/gap_bridging.rs:158-173 | ticks gained plus fractions lost make up the elapsed time exactly |
| `GapBridging.DriftBound` | src/gap_bridging.rs:158-173 | after n replays the advance is the true advance less the whole ticks lost, which are at most n - 1 |
| `GapBridging.DriftFreeCadence` | src/gap_bridging.rs:158-173 | the advance is exact when every spacing is a multiple of 100 microseconds |
| `GapBridging.ReplayTimestamps` | src/gap_bridging.rs:132-173 | through any mixture of ticks and unbroadcast packets the counters hold the anchor plus the accumulated advance modulo 2^32 |
| `GapBridging.ReplayDrift` | src/gap_bridging.rs:132-173 | after a broadcast at p and t0 and n replays the timestamp is p + K modulo 2^32 with K within n - 1 below the wall-clock ticks |
| `GapBridging.ReplayExactOnGrid` | src/gap_bridging.rs:132-173 | when all ticks fall on multiples of 100 microseconds after the broadcast, the timestamp is p plus exactly the wall-clock ticks modulo 2^32 |
| `GapBridging.TickBridging` | src/stream_source.rs:988-1033 | a frame is sent exactly when the policy replays, holding the cached NALs without parameter sets or undecodable ones, in order |
| `GapBridging.StripIsFilter` | src/stream_source.rs:1001-1009 | the replayed burst is the cached one, in order, with exactly the decodable NALs that are no parameter sets |
| `GapBridging.AnchorIff` | src/stream_source.rs:1001-1016 | a tick has something to replay if and only if a burst is cached that holds such a NAL, and then at the captured timestamp |
| `GapBridging.ProcessStreamResult` | src/stream_source.rs:1275-1362 | any video packet, broadcast or not, restarts the countdown; only a broadcast one ends a gap and moves the timestamp counters, and nothing else touches the policy; live audio is dropped exactly while the source was bridging as the packet came; only stream end stops the loop |
| `CameraLifecycle.Safety` | src/camera.rs:776-978 | every state of every interleaving of callers, sweeps, drains and the run task satisfies the lock, kind, place and session invariants |
| `CameraLifecycle.InsertNeverOverwrites` | src/camera.rs:817-884 | an insert always finds its kind unregistered |
| `CameraLifecycle.StartsAreExclusive` | src/camera.rs:812-884 | only the create-lock holder starts a source, and any unstopped source of that kind is then already in a drain's list |
| `CameraLifecycle.StartDuplicatesIff` | src/camera.rs:812-884 | as a caller is about to start a source, an unstopped one of that kind exists if and only if a drain still lists one |
| `CameraLifecycle.TwinsOnlyInADrain` | src/camera.rs:812-978 | of two unstopped sources of one kind exactly one is in a drain's list |
| `CameraLifecycle.NoDuplicateIff` | src/camera.rs:812-978 | no two unstopped sources share a kind if and only if no source in a drain's list has had its kind registered or started again |
| `CameraLifecycle.NoSourceLeaks` | src/camera.rs:776-978 | every source ever started is in exactly one of: registry, stopped, the lock holder's hand, a drain's pending list |
| `CameraLifecycle.ResultHasRequestedKind` | src/camera.rs:776-887 | a caller is only ever handed a source of the kind it asked for |
| `CameraLifecycle.SlotImpliesConnected` | src/camera.rs:1094-1348 | at every atomic step a filled slot means Connected, and run returns with the slot empty and Disconnected |
| `CameraLifecycle.TeardownBeforeReconnect` | src/camera.rs:1291-1458 | between filling the slot and any later connect come source stop, one logout attempt and slot clear, in that order and nothing else |
| `CameraLifecycle.LogoutOncePerSession` | src/camera.rs:1316-1333 | every logout attempt is preceded by its session's source stop and followed by its slot clear |
| `CameraLifecycle.NoConnectAfterAuthFailure` | src/camera.rs:1434-1446 | once the task has reported refused credentials it only winds down |
| `CameraRuns.NoRetryAfterRefusal` | src/camera.rs:1434-1446 | on every schedule, no connect attempt follows one that was refused its credentials |
| `CameraRuns.NoConnectAfterCancelSeen` | src/camera.rs:1388-1450 | once the task has noticed a cancel, at the loop head, parked, connecting or backing off, it connects no more |
| `CameraRuns.OneConnectAfterCancel` | src/camera.rs:1388-1450 | after a cancel at most one more connect attempt begins, on any schedule |
| `CameraRuns.BackoffBetweenConnects` | src/camera.rs:1429-1450 | between any two connect attempts the task sleeps its back-off to the end |
| `CameraRuns.ParkedUntilWoken` | src/camera.rs:1393-1406 | a camera parked on idle is dialled again only after something has woken the task |
| `CameraRuns.OtherFailureIsRetried` | src/camera.rs:1434-1450 | any other failure leads back to the next connect attempt, reported Disconnected in between |
| `CameraRuns.SuccessOpensSession` | src/camera.rs:1094-1110 | a successful attempt opens a new session: Connected, then the slot filled |
| `CameraRuns.ReturnsOnlyWhenToldTo` | src/camera.rs:1386-1458 | run returns only if it was cancelled or an attempt was refused its credentials |
| `CameraRuns.StateFollowsTask` | src/camera.rs:1094-1458 | the published state is Connecting while an attempt is under way, Connected throughout a session, Disconnected while parked, backing off or done |
| `CameraRuns.StartsAreVetted` | src/camera.rs:828-884 | before a call starts a source it has, in this order and under the lock, found the task not cancelled, the camera Connected and the slot filled, and the source is fed by the session it read |
| `CameraRuns.SourcesOnlyWhenConnected` | src/camera.rs:782-803 | no call is handed a source unless its poll found the task not cancelled and then the camera Connected |
| `CameraRuns.RegisteredIsReused` | src/camera.rs:804-826 | a call that looks while its kind is registered is handed that source and starts nothing |
| `CameraProgress.CancelEndsTask` | src/camera.rs:1386-1467 | after a cancel the task takes at most 23 more steps whatever the callers do, and a schedule that grants them has it return |
| `CameraProgress.CancelledTaskReturns` | src/camera.rs:1386-1467 | from any state, a cancelled task left to run returns within its remaining steps |
| `CameraProgress.TaskNeverStuck` | src/camera.rs:1386-1467 | until it has returned the task always has a next step |
| `CameraProgress.UndisturbedCall` | src/camera.rs:776-884 | a call left to itself ends with the lock released: unavailable if cancelled or not Connected, else the registered source of its kind, else a new one of the current session, registered; nothing else changes |
| `CameraHandover.RegistryStaysEmptyIff` | src/camera.rs:1452-1467 | once run has returned, the registry stays empty on every continuation if and only if it is empty and no caller has the camera in hand |
| `CameraHandover.RunCanReturnUnderACaller` | src/camera.rs:827-884 | some schedule has run return with an empty registry while a caller holds the camera |
| `CameraHandover.OldSessionGoneIff` | src/camera.rs:948-978 | with the slot empty, no continuation through any further sessions registers a source of a session that is over, if and only if the registry is empty and no caller has a camera in hand |
| `CameraHandover.AllStoppedIff` | src/camera.rs:948-978 | outside a drain every source ever started is stopped if and only if none is registered and no caller is about to insert one |
| `CameraHandover.DuplicateStartReachable` | src/camera.rs:812-978 | some schedule starts a second source of a kind while the first is listed for stopping and not stopped |
| `CameraHandover.StaleSourceServed` | src/camera.rs:804-810 | some schedule hands a source of the first session to a caller of the second |
| `PruneGrace.StreamSource.Visit` | src/camera.rs:905-934 | one visit keeps or stops a source and sets its idle marker as the decision table says |
| `PruneGrace.Registry.PruneIdleStreamSourcesAt` | src/camera.rs:903-936 | one sweep applies the decision to every entry, removes and stops exactly the expired ones, and leaves the others registered |
| `PruneGrace.MarkerKept` | src/camera.rs:905-934 | while a source is kept its marker is the instant of the first sweep of the current idle stretch |
| `PruneGrace.PrunedAtExactly` | src/camera.rs:903-936 | a sweep removes a source if and only if an earlier sweep at least the grace before, and every sweep since, saw no subscriber; zero grace included |
| `PruneGrace.PrunedIffExpired` | src/camera.rs:903-936 | a source is gone after a history of sweeps exactly when two of them bound an idle stretch as long as the grace |
| `PruneGrace.PrunedInTime` | src/camera.rs:889-936 | with sweeps at most P apart removal comes within grace plus 2 P of the last unsubscribe |
| `OverflowLog.Safety` | src/stream_source.rs:1465-1495 | every interleaving keeps the accounting balanced and the logged stamps spaced |
| `OverflowLog.NothingUncounted` | src/stream_source.rs:1465-1495 | when quiet, calls equal log lines plus reported counts plus the pending count |
| `OverflowLog.SuppressedSinceSwap` | src/stream_source.rs:1478-1493 | on every schedule the shared count is the suppressed calls since the latest swap, all earlier ones are reported or carried by a line about to be written, and the lines are the warnings made |
| `OverflowLog.LineReports` | src/stream_source.rs:1484-1491 | a line reports exactly the calls suppressed between the previous swap and its own, whatever other calls do before it is written |
| `OverflowLog.RateLimited` | src/stream_source.rs:1459-1495 | from a nonzero stamp on, k further lines take at least k windows of 60 s |
| `OverflowLog.NextLineSpacedIff` | src/stream_source.rs:1459-1495 | under a monotonic clock the next line comes a window after the latest one on every continuation, if and only if the latest stamp is not zero or the clock and all readings in flight are past the first window |
| `OverflowLog.UndisturbedCallLogsIff` | src/stream_source.rs:1478-1493 | a call that meets no interference logs if and only if nothing was stamped yet or the window has passed |
| `OverflowLog.UndisturbedCallCounts` | src/stream_source.rs:1465-1495 | run to its end without interference, a call either writes a line with the whole suppressed count and clears it, or adds one to it |
| `OverflowLog.ZeroStampOpensNoWindow` | src/stream_source.rs:1465-1495 | a line stamped zero can be followed by another within the window |
| `PreviewAggregator.Aggregator.Tick` | src/camera.rs:1498-1513 | one atomic tick changes state and bookkeeping as specified |
| `PreviewAggregator.FollowsBridging` | src/camera.rs:219-246 | from Live and undisturbed, the state after each tick is Connecting if and only if that tick saw bridging, and the bookkeeping is the last value written |
| `PreviewAggregator.SleepingUntouched` | src/camera.rs:224-246 | no run of ticks alters Sleeping |
| `PreviewAggregator.ConnectingKeptIff` | src/camera.rs:229-246 | a Connecting survives a run of ticks if and only if the bookkeeping does not claim it or every tick saw bridging |
| `PreviewAggregator.StaleClaimUpgrades` | src/camera.rs:1487-1516 | a connect-loop Connecting over the aggregator's own is upgraded to Live |
| `PreviewAggregator.SleepingSurvivesIff` | src/camera.rs:1495-1514 | from any state reached under free interleaving, a Sleeping survives every aggregator schedule if and only if no decided write was outstanding |
| `PreviewAggregator.SleepingCanBeLost` | src/camera.rs:1495-1514 | a tick that saw bridging overwrites a Sleeping written between its read and its write |
| `PreviewAggregator.DecidedWriteLands` | src/camera.rs:1498-1513 | a decided write is made as decided and claimed, whatever the connect loop has written in between |
| `MotionHold.MotionListener.Handle` | src/camera_tasks.rs:43-127 | each event updates guard and deadline as specified and the shared wake counter moves exactly with the guard |
| `MotionHold.OneGuard` | src/camera_tasks.rs:57-118 | over any event sequence at most one guard is outstanding, a pending release implies a held guard, and each subscription starts without one |
| `MotionHold.GuardIffMotionHeld` | src/camera_tasks.rs:74-118 | the guard is held if and only if since some Start no timer fired, no back-off ended and no cancel came |
| `MotionHold.StopSchedulesRelease` | src/camera_tasks.rs:101-111 | a Stop during held motion schedules its release, which idle reports do not disturb |
| `MotionHold.TimerReleaseIsLate` | src/camera_tasks.rs:76-118 | a timer release comes at least the hold after the latest Stop, with only idle reports since, and releases a held guard |
| `MotionHold.PhaseIff` | src/camera_tasks.rs:43-127 | what the listener is doing is read off the events: subscribed, backing off after a failure, subscribing after a back-off, or ended by a cancel |
| `MotionHold.CancelIsLast` | src/camera_tasks.rs:76-127 | a cancel is the last event of a run and leaves the listener ended with no guard |
| `MotionHold.MayFollowIff` | src/camera_tasks.rs:43-127 | an event can follow a run if and only if its events say so: in particular a timer release exactly when the hold of a standing Stop is over, a cancel exactly when subscribed or backing off |
| `Streaks.KeepaliveLoop` | src/camera.rs:986-1051 | the loop stops at the first probe that ends `max` consecutive failures and never otherwise |
| `Streaks.BatteryPoller` | src/camera_tasks.rs:217-283 | one run latches at the first poll that ends three consecutive refusals with no answer before it, and never otherwise |
| `StatusRepublish.MqttStatusReporter.Report` | src/mqtt_status.rs:60-79 | a delivered report updates retained store and cache, a failed one changes neither |
| `StatusRepublish.MqttStatusReporter.RepublishCachedStatus` | src/camera.rs:666-688 | the cached values are re-emitted in order up to the first failure, and the cache is unchanged |
| `StatusRepublish.HandleConnack` | src/mqtt_loop.rs:271-279 | every camera is republished, and one camera's failure does not stop the others |
| `StatusRepublish.FirstFailure` | src/camera.rs:682-685 | the republish stops at the first cached value whose delivery fails and at no other |
| `StatusRepublish.ErrorFreeNeverStops` | src/camera.rs:682-685 | without failures the republish reaches every cached value |
| `StatusRepublish.CacheIsLatest` | src/mqtt_status.rs:43-57 | after any history with failures each cache field is the latest delivered value of its kind |
| `StatusRepublish.RepublishRecovers` | src/camera.rs:659-688 | after a wipe and an error-free republish each topic holds exactly the latest delivered cacheable value, and no other topic is set |
| `StatusRepublish.OtherTopicsRecover` | src/status_cache.rs:3-16 | on every cached topic but motion the wipe is undone completely |
| `StatusRepublish.MotionRecoversIff` | src/mqtt_status.rs:45-79 | the motion topic is restored if and only if its latest delivery was not "unknown" |
| `StatusRepublish.UnknownIsNotRestored` | src/camera.rs:1351-1360 | when "unknown" is only reported before any motion, as run does, a wiped "unknown" comes back as no message at all |
| `StatusRepublish.StartupUnknownLost` | src/camera.rs:1351-1360 | a camera that has only reported "unknown" loses it to a wipe |
| `StatusRepublish.SubscriberReads` | src/mqtt/status.rs:44-123 | every payload reads back as the event it was made from, a battery level clamped to 100 |
| `CivilDate.YearOfEraBrackets` | src/bcmedia_dump.rs:290-292 | the year of the era lies in 0 to 399 and brackets the day of the era |
| `CivilDate.SplitEraCounts` | src/bcmedia_dump.rs:289-296 | all the commented intermediate ranges hold, and the pieces count up to the day of the era |
| `CivilDate.ConversionIsSound` | src/bcmedia_dump.rs:286-298 | every day number gives a valid Gregorian date whose independent day count is that number, negative eras included |
| `CivilDate.ConversionIsComplete` | src/bcmedia_dump.rs:286-298 | every valid date is reached from its own day number |
| `CivilDate.ConversionStepsByOneDay` | src/bcmedia_dump.rs:286-298 | consecutive day numbers are consecutive calendar days |
| `CivilDate.ConversionLeafsTheCalendar` | src/bcmedia_dump.rs:286-298 | the arithmetic agrees with leafing through the calendar day by day from 1970-01-01 |
| `CivilDate.ConversionExactRange` | src/bcmedia_dump.rs:280-298 | the narrowed result is the calendar date if and only if the day falls in a signed 32-bit year |
| `CivilDate.ConversionWrapsInsideI64` | src/bcmedia_dump.rs:297 | the first day of year 2^31 is a 64-bit day number and comes out in year -2^31 |
| `CivilDate.ConversionOverflow` | src/bcmedia_dump.rs:287-291 | the signed intermediates fit in 64 bits exactly when the opening addition does |
| `IsoTimestamp.SecondsRoundTrip` | src/bcmedia_dump.rs:260-279 | an independent reader recovers the printed second, negative ones included, if and only if it falls in a signed 32-bit year |
| `IsoTimestamp.SystemTimeRoundTrip` | src/bcmedia_dump.rs:260-265 | the stamp denotes the second containing the time if and only if it is in range and not before the epoch or on a whole second |
| `IsoTimestamp.PreEpochFractionRoundsUp` | src/bcmedia_dump.rs:261-265 | half a second before the epoch prints as the epoch |
| `IsoTimestamp.TwentyCharacters` | src/bcmedia_dump.rs:274-278 | the stamp is twenty characters starting with a digit if and only if the year has four digits |
| `IsoTimestamp.StampReadsBack` | src/bcmedia_dump.rs:260-279 | every field of every stamp reads back |
| `OutlineDilation.BlendChannel` | src/preview_overlay.rs:179-188 | the result is the alpha-weighted average rounded down, the 16-bit intermediate never overflows, the result lies between background and foreground, and alpha 0 and 255 give exactly one of them |
| `OutlineDilation.Alpha` | src/preview_overlay.rs:148-168 | a coverage becomes the alpha that is 255 times it, rounded down |
| `OutlineDilation.DilationIsDiscMax` | src/preview_overlay.rs:112-147 | the dilation is the exact maximum coverage over the disc |
| `OutlineDilation.DiscMax` | src/preview_overlay.rs:125-147 | the nested loops with early exit compute the dilation, all indices in bounds |
| `OutlineDilation.NothingOutsideScan` | src/preview_overlay.rs:112-119 | outside the scanned rectangle the dilation vanishes |
| `OutlineDilation.OutlinePass` | src/preview_overlay.rs:112-153 | every pixel of the image is composited exactly once with the dilation at its offset |
| `OutlineDilation.FillPass` | src/preview_overlay.rs:155-171 | every pixel is then composited with the glyph's own coverage |
| `OutlineDilation.DrawGlyph` | src/preview_overlay.rs:103-171 | one glyph is outline then fill, pixel by pixel |
| `OutlineDilation.GlyphContrast` | src/preview_overlay.rs:103-171 | a pixel's coverage never exceeds its halo; in reach of full coverage it becomes the grey of its own coverage; with nothing above the threshold in reach it is brightened by at most 12 steps, and unchanged if uncovered; uncovered pixels are only darkened and the fill only brightens |
| `OutlineDilation.UntouchedIff` | src/preview_overlay.rs:112-153 | an uncovered pixel that is not black keeps its colour if and only if no coverage above the threshold is in reach |
| `PlacementScan.WalkForMisplaced` | src/config.rs:727-759 | the walk pushes exactly the scan's findings, in order, with their printed paths |
| `PlacementScan.ValidateTopLevelKeyPlacement` | src/config.rs:702-725 | a document is accepted if and only if no root-only scalar lies in a table reachable below the root |
| `PlacementScan.RootExact` | src/config.rs:702-759 | the list holds a finding if and only if following its path through tables and arrays of tables leads to that binding |
| `PlacementScan.RootNoRepeats` | src/config.rs:702-759 | with unique keys per table each misplaced binding is found once |
| `PlacementScan.RenderInjective` | src/config.rs:727-759 | paths through keys that hold no dot and do not end like an array index print differently |
| `PlacementScan.LinesNoRepeats` | src/config.rs:702-725 | with such keys, unique in each table, no line of the message is printed twice |
| `PlacementScan.AmbiguousKeyRepeats` | src/config.rs:702-759 | every key with a dot, or ending like an array index, occurs in a document whose message prints a line twice |

## Left out

- Sockets, the Baichuan, RTSP and MQTT clients, TLS, the command line, file capture, JPEG decoding and font rasterising are not part of this model.
- The translator, RTP packetisers and codecs are not part of this model; a packet is a video packet with or without a broadcast timestamp, or something else.
- Wake locks, grace period and watchdog appear only as a counter and as arbitrary nondecreasing sweep times.
- Floating point: coverage values are reals, so the 32-bit rounding of 0.05 and of the product with 255 is not captured.
- The overflow clock is monotonic as read: its 64-bit wrap after 584 years of uptime is not modelled.
- A `SystemTime` outside the 64-bit second range, which the platform cannot represent, is not modelled.
- Bounded pacer queues: an item that overflows its queue is simply absent from the arrival schedule.
- The lifecycle, overflow and preview protocols are transition systems over values rather than objects: lock acquisition, atomic accesses and their interleaving are captured, memory layout and aliasing are not.
- Timestamps across the hand-off from replay to live are not ordered: replays bypass the pacer queue, so no such claim holds.
- The battery verdict is modelled for one run of the poller; its stickiness across sessions is a flag that nothing clears.
- StatusRepublish.MqttStatusReporter.Report: publish and cache write are one step, because the claims are about sequential reports.
- StatusRepublish.HandleConnack: subscribing and discovery are not modelled, and each camera's topics are a broker store of their own.
- The 30 s deadline of a stream request is not timed: a poll that finds the camera not Connected may try again or give up.
- CameraLifecycle.Safety: the awaiting of stopped readers and the back-off delays are not modelled, because they change no shared state.
- Reconnect and MQTT back-off ladders, the overlay cache, audio presence and configuration defaults would only add easy members.
