# Frame cadence adapter — a Dafny model

This project models WebRTC's frame cadence adapter (`FrameCadenceAdapterInterface`). The model follows the behaviour that the adapter's unit test pins down. The adapter sits between a video source and the encoder and runs in one of two modes:

- **Passthrough.** Each captured frame goes to the callback as soon as the adapter's task queue runs. The frame is flagged when more frames are still waiting to be processed.
- **Zero-hertz.** This mode needs the field trial, zero-hertz parameters, and source constraints with a min of 0 fps and a positive max fps. In it:
  - Every frame is delivered one frame period (1/max fps) after it was posted, or as soon as the queue runs if that is later.
  - The last frame is then repeated until a new frame arrives. The repeat period is the frame period while the encoder's layers have not converged on quality. A source restriction below max fps slows it further. Once every enabled layer has converged, the repeat period is the long idle period.
  - Repeats carry the original timestamps advanced by the time since the original delivery. A timestamp of 0 means unset and stays 0.
  - A refresh-frame requester is armed on activation and on a discard notice, a grace period of frame periods ahead. It then asks for a refresh frame every frame period until a frame arrives.

Two files hold the model:

- `cadence_spec.dfy` (module `CadenceSpec`) writes the adapter's state as the value `Adapter`:
  - every public operation is a transition function on that value;
  - `Advance(s, t)` runs the adapter's task queue until the simulated clock reads `t`. Frames handed over by `OnFrame` run first, then every delayed task due by `t`, earliest first. At equal times the frame task runs before the refresh task.
- `cadence_adapter.dfy` (module `CadenceAdapter`) holds the class `FrameCadenceAdapter`:
  - its fields are updated in place, and `AdvanceTo` is a loop over the queue;
  - each method is proved to perform the `CadenceSpec` transition of the same name on the ghost value `Model()`.

The properties are proved as lemmas in `cadence_properties.dfy` (module `CadenceProperties`), so they hold for the class too.

Units:

- Times and durations are integer microseconds.
- `FramePeriod(fps)` is 1 000 000 / fps, truncated and at least 1.

The callback is modelled as the log of the events it receives:

- `Delivered(post time, queue overloaded, frame)`
- `DiscardForwarded`
- `RefreshRequested`

## Model

| member | source | states |
|---|---|---|
| CadenceSpec.FramePeriod | third_party/libwebrtc/video/frame_cadence_adapter_unittest.cc:612-617 | The frame period at `fps` is the largest whole number of microseconds that fits `fps` times into a second, and 1 µs above a million fps. |
| CadenceProperties.CreateValid | third_party/libwebrtc/video/frame_cadence_adapter_unittest.cc:90-110 | A new adapter satisfies the adapter invariant, has called nothing back, and starts in passthrough mode. |
| CadenceProperties.OperationsPreserveValid | third_party/libwebrtc/video/frame_cadence_adapter_unittest.cc:172-237 | Every public operation keeps the invariant: the zero-hertz scheduler exists exactly while the mode is enabled, runs at the configured max fps, and has one layer row per configured layer. |
| CadenceProperties.AdvancePreservesValid | third_party/libwebrtc/video/frame_cadence_adapter_unittest.cc:239-311 | Running the queue keeps the invariant. |
| CadenceProperties.AdvanceAppends | third_party/libwebrtc/video/frame_cadence_adapter_unittest.cc:239-267 | Running the queue to `t` only appends to what the callback has seen, empties the hand-over queue, and ends with the clock at `t`. |
| CadenceProperties.PassthroughDeliversEachFrameOnce | third_party/libwebrtc/video/frame_cadence_adapter_unittest.cc:112-127 | In passthrough mode each handed-over frame is delivered exactly once, in order, with its own post time, flagged exactly when more frames were waiting behind it. |
| CadenceProperties.BackToBackFramesFlagged | third_party/libwebrtc/video/frame_cadence_adapter_unittest.cc:112-123 | Of two frames submitted back to back, the first is delivered flagged as overloaded and the second is not. |
| CadenceProperties.LoneFrameNotFlagged | third_party/libwebrtc/video/frame_cadence_adapter_unittest.cc:124-127 | A lone frame is delivered when the queue runs, unflagged. |
| CadenceProperties.DisabledTrialNeverActivates | third_party/libwebrtc/video/frame_cadence_adapter_unittest.cc:90-110 | With the field trial disabled, neither constraints nor zero-hertz parameters activate zero-hertz mode. |
| CadenceProperties.DiscardNoticeForwarded | third_party/libwebrtc/video/frame_cadence_adapter_unittest.cc:105-108 | A discard notice reaches the callback at once. In passthrough mode nothing else changes. In zero-hertz mode only the refresh timer may change. |
| CadenceProperties.ReportedRateIsMaxFps | third_party/libwebrtc/video/frame_cadence_adapter_unittest.cc:172-185 | In zero-hertz mode the reported input frame rate is the constraints' max fps. |
| CadenceProperties.ReportedRateIsMeasured | third_party/libwebrtc/video/frame_cadence_adapter_unittest.cc:129-170 | When zero-hertz mode is not enabled, the reported rate is the measured rate. |
| CadenceProperties.DeactivationRestoresMeasuredRate | third_party/libwebrtc/video/frame_cadence_adapter_unittest.cc:210-237 | Disabling zero-hertz mode drops the scheduler, keeps the invariant, and the reported rate is the measured rate again. |
| CadenceProperties.ConstraintChangeRestartsScheduler | third_party/libwebrtc/video/frame_cadence_adapter_unittest.cc:187-208 | A change to a new max fps is reported at once. It also switches to the new frame period, stops the repeat cadence, re-arms the refresh timer a grace period ahead and keeps the source restriction. Nothing is delivered. |
| CadenceProperties.FrameDeliveredOnePeriodAfterPost | third_party/libwebrtc/video/frame_cadence_adapter_unittest.cc:269-311 | In zero-hertz mode a frame posted at `post` is delivered at max(post + period, time the queue runs). Nothing is delivered before that, and the frame is delivered unflagged with its own timestamps. |
| CadenceProperties.FrameAfterConstraintChange | third_party/libwebrtc/video/frame_cadence_adapter_unittest.cc:199-207 | A frame submitted right after a change of max fps is delivered one new frame period later. |
| CadenceProperties.RepeatEventsSplit | third_party/libwebrtc/video/frame_cadence_adapter_unittest.cc:313-363 | The repeat sequence is its first delivery followed by the same sequence starting one period later. |
| CadenceProperties.FireRepeat | third_party/libwebrtc/video/frame_cadence_adapter_unittest.cc:313-363 | A due repeat is delivered with timestamps advanced by the time since the original delivery. The next repeat is scheduled one repeat period later, and the period stays the same. |
| CadenceProperties.RepeatsAtSteadyCadence | third_party/libwebrtc/video/frame_cadence_adapter_unittest.cc:313-399 | With no new frame and the refresh requester stopped, running the queue to `due + k * every` adds exactly `k + 1` repeats to the whole log, at `due`, `due + every`, …, and nothing else. Each carries the original frame with timestamps advanced by its distance from the original delivery. `RepeatCadence` states the same deliveries with the refresh requester running. |
| CadenceProperties.FrameThenRepeats | third_party/libwebrtc/video/frame_cadence_adapter_unittest.cc:313-363 | A frame posted to an empty zero-hertz queue is delivered once at max(post + period, time the queue runs) with its own timestamps. The queue then delivers exactly `k + 1` short repeats of it, one short period apart, the i-th with timestamps advanced by i short periods, and nothing else, up to `due + (k + 1) * every`. |
| CadenceProperties.LateRepeatCarriesElapsedTime | third_party/libwebrtc/video/frame_cadence_adapter_unittest.cc:959-1013 | A repeat whose task runs late, after its due time, is delivered at the time it runs. Its timestamps are advanced by the actual time since the original delivery, not by the scheduled time. It keeps its origin, and the next repeat is one repeat period after the late delivery. |
| CadenceProperties.RepeatCadence | third_party/libwebrtc/video/frame_cadence_adapter_unittest.cc:313-363 | With no new frame, running the queue to `due + k * every` adds exactly `k + 1` deliveries: the pending repeat at `due` and then one every repeat period, each the original frame advanced by its distance from the original delivery. This holds whatever refresh requests fire in between. |
| CadenceProperties.RepeatsContinueAfterDiscard | third_party/libwebrtc/video/frame_cadence_adapter_unittest.cc:514-525 | A discard notice while the last frame is repeating leaves the repeats as they were: the same `k + 1` deliveries at the same cadence, while the refresh requester starts firing. |
| CadenceProperties.LastRepeatFires | third_party/libwebrtc/video/frame_cadence_adapter_unittest.cc:313-363 | The pending repeat fires at its due time, even with the refresh requester armed, and it is the only delivery up to then. |
| CadenceProperties.RepeatTimestamps | third_party/libwebrtc/video/frame_cadence_adapter_unittest.cc:365-399 | A repeat keeps the frame. Unset (0) timestamps stay 0. Set ones grow by the elapsed time: µs for the capture timestamp, whole ms for the NTP time. |
| CadenceProperties.FramePeriodAntitone | third_party/libwebrtc/video/frame_cadence_adapter_unittest.cc:838-854 | A higher frame rate never has a longer frame period. |
| CadenceProperties.RestrictionBindsOnlyBelowMaxFps | third_party/libwebrtc/video/frame_cadence_adapter_unittest.cc:838-930 | The unconverged repeat period is the restriction's period when the restriction is below max fps. Otherwise, and with no restriction, it is the frame period. |
| CadenceProperties.CadenceFollowsConvergence | third_party/libwebrtc/video/frame_cadence_adapter_unittest.cc:793-836 | A delivery from an otherwise empty queue leaves exactly one repeat pending. A new frame is delivered with its own timestamps and becomes the repeated frame, counted from this delivery. A repeat is delivered advanced by the time since that origin. The next repeat is an idle repeat one idle period away exactly when the stream has settled; otherwise it is a short repeat one short period away, never less than the frame period. The refresh timer and the layer table are not touched. |
| CadenceProperties.ResetUnsettles | third_party/libwebrtc/video/frame_cadence_adapter_unittest.cc:642-649 | Resetting convergence keeps every layer's enabled flag and leaves the stream unsettled. |
| CadenceProperties.FreshLayersUnsettled | third_party/libwebrtc/video/frame_cadence_adapter_unittest.cc:771-779 | A newly configured layer table has one row per layer and is unsettled. |
| CadenceProperties.LayerStatusUnsettles | third_party/libwebrtc/video/frame_cadence_adapter_unittest.cc:571-587 | Enabling or disabling a configured layer records the flag and clears that layer's convergence, leaving every other layer as it was. Enabling a layer leaves the stream unsettled. Status or convergence feedback for an unconfigured layer index changes nothing. |
| CadenceProperties.EnableAndConvergeLayers | third_party/libwebrtc/video/frame_cadence_adapter_unittest.cc:675-684 | Enabling layer i and then reporting it converged, for each of the first `n` layers in turn, leaves those layers enabled and converged and changes nothing else. |
| CadenceProperties.ConvergedSetupSettles | third_party/libwebrtc/video/frame_cadence_adapter_unittest.cc:668-723 | Enabling and converging every configured layer, one after the other, settles the stream. |
| CadenceProperties.ConvergenceFeedbackSettles | third_party/libwebrtc/video/frame_cadence_adapter_unittest.cc:793-836 | Marking the last unconverged enabled layer converged settles the stream. Marking it unconverged does not. |
| CadenceProperties.FrameEntryResets | third_party/libwebrtc/video/frame_cadence_adapter_unittest.cc:401-431 | A frame entering zero-hertz mode is queued for delivery one period after its post time. It cancels the pending repeat and the refresh timer, and makes every layer unconverged. |
| CadenceProperties.KeyFrameRequestRequestsNothing | third_party/libwebrtc/video/frame_cadence_adapter_unittest.cc:651-723 | A key-frame request calls nothing back and leaves the refresh timer, queued frames and hand-over queue alone. It unsettles the stream. An idle repeat more than one frame period away is replaced by a short repeat of the same frame and origin, due one short period from now. Any other repeat is kept as it is, and no repeat is created. |
| CadenceProperties.NoRefreshWhileStopped | third_party/libwebrtc/video/frame_cadence_adapter_unittest.cc:451-464 | While the refresh timer is stopped or set beyond `t`, running the queue to `t` adds no refresh request to the callback's log. |
| CadenceProperties.NoRefreshOnceFrameArrives | third_party/libwebrtc/video/frame_cadence_adapter_unittest.cc:466-490 | Once a frame reaches the zero-hertz adapter, running the queue adds no refresh request, even if a grace period was under way. |
| CadenceProperties.RefreshEveryPeriodUntilFrame | third_party/libwebrtc/video/frame_cadence_adapter_unittest.cc:466-490 | With no frame, running the queue to `first + k * period` requests exactly `k + 1` refresh frames, one at the armed time `first` and then one per frame period. |
| CadenceProperties.RefreshCadence | third_party/libwebrtc/video/frame_cadence_adapter_unittest.cc:466-531 | Once the refresh timer is armed for `first` and no frame is handed over, running the queue to `first + k * period` adds exactly `k + 1` refresh requests, at `first` and then one per frame period, whatever forwards and repeats run in between. |
| CadenceProperties.RefreshCadenceAfterDiscard | third_party/libwebrtc/video/frame_cadence_adapter_unittest.cc:492-531 | After a dropped frame, with the refresh timer stopped and no frame handed over, the first refresh request comes a grace period of frame periods after the discard notice, then one per frame period: exactly `k + 1` requests up to `first + k * period`. |
| CadenceProperties.LastRefreshFires | third_party/libwebrtc/video/frame_cadence_adapter_unittest.cc:492-531 | The armed refresh request fires at its time, and it is the only request up to then. |
| CadenceProperties.DiscardArmsRefresh | third_party/libwebrtc/video/frame_cadence_adapter_unittest.cc:492-531 | In zero-hertz mode a discard notice arms the refresh timer a grace period of frame periods ahead, unless it is already running. |
| CadenceProperties.ActivationArmsRefresh | third_party/libwebrtc/video/frame_cadence_adapter_unittest.cc:433-449 | Entering zero-hertz mode arms the refresh timer a grace period ahead. There is nothing to deliver or repeat yet, and the new layer table is unsettled. |
| CadenceProperties.NothingAfterRelease | third_party/libwebrtc/video/frame_cadence_adapter_unittest.cc:589-610 | Once the adapter is released, running the queue calls nothing back. |
| CadenceAdapter.FrameCadenceAdapter.OnFrame | third_party/libwebrtc/video/frame_cadence_adapter_unittest.cc:112-127 | Hands the frame to the adapter's queue with the current time as its post time. |
| CadenceAdapter.FrameCadenceAdapter.OnDiscardedFrame | third_party/libwebrtc/video/frame_cadence_adapter_unittest.cc:492-531 | Forwards the discard notice and, in zero-hertz mode, arms the refresh timer when it is stopped. |
| CadenceAdapter.FrameCadenceAdapter.Reconfigure | third_party/libwebrtc/video/frame_cadence_adapter_unittest.cc:187-237 | Leaves, enters or rebuilds the zero-hertz scheduler as the parameters and constraints demand. |
| CadenceAdapter.FrameCadenceAdapter.OnConstraintsChanged | third_party/libwebrtc/video/frame_cadence_adapter_unittest.cc:187-208 | Records the constraints and reconfigures, keeping the layer table unless max fps changed. |
| CadenceAdapter.FrameCadenceAdapter.SetZeroHertzModeEnabled | third_party/libwebrtc/video/frame_cadence_adapter_unittest.cc:620-631 | Records the parameters and reconfigures with a fresh layer table. |
| CadenceAdapter.FrameCadenceAdapter.UpdateVideoSourceRestrictions | third_party/libwebrtc/video/frame_cadence_adapter_unittest.cc:856-880 | Records the restriction that slows unconverged repeats. |
| CadenceAdapter.FrameCadenceAdapter.ResetLayerConvergence | third_party/libwebrtc/video/frame_cadence_adapter_unittest.cc:642-649 | Clears every layer's converged flag in place and keeps the enabled flags. |
| CadenceAdapter.FrameCadenceAdapter.UpdateLayerStatus | third_party/libwebrtc/video/frame_cadence_adapter_unittest.cc:781-791 | Sets one configured layer's enabled flag and clears its converged flag. Ignores unconfigured indices. |
| CadenceAdapter.FrameCadenceAdapter.UpdateLayerQualityConvergence | third_party/libwebrtc/video/frame_cadence_adapter_unittest.cc:793-836 | Sets one configured layer's converged flag. Ignores unconfigured indices. |
| CadenceAdapter.FrameCadenceAdapter.HasQualityConverged | third_party/libwebrtc/video/frame_cadence_adapter_unittest.cc:793-836 | Scans the layer table and answers exactly whether the stream has settled. |
| CadenceAdapter.FrameCadenceAdapter.ShortRepeatPeriod | third_party/libwebrtc/video/frame_cadence_adapter_unittest.cc:838-880 | Computes the unconverged repeat period: the frame period, lengthened to a positive restriction's period. |
| CadenceAdapter.FrameCadenceAdapter.ProcessKeyFrameRequest | third_party/libwebrtc/video/frame_cadence_adapter_unittest.cc:668-723 | Resets convergence and replaces an idle repeat more than one frame period away by a short repeat from now. |
| CadenceAdapter.FrameCadenceAdapter.GetInputFrameRateFps | third_party/libwebrtc/video/frame_cadence_adapter_unittest.cc:129-237 | Reports max fps in zero-hertz mode and the measured rate otherwise. Changes nothing. |
| CadenceAdapter.FrameCadenceAdapter.Release | third_party/libwebrtc/video/frame_cadence_adapter_unittest.cc:589-610 | Marks the adapter released and drops its scheduler and hand-over queue. |
| CadenceAdapter.FrameCadenceAdapter.SkipTo | third_party/libwebrtc/video/frame_cadence_adapter_unittest.cc:269-311 | Moves the clock forward without running the queue. |
| CadenceAdapter.FrameCadenceAdapter.ProcessOnePosted | third_party/libwebrtc/video/frame_cadence_adapter_unittest.cc:112-127 | Runs the oldest handed-over frame. Passthrough delivers it; zero-hertz queues it one period after its post time. |
| CadenceAdapter.FrameCadenceAdapter.FireFrame | third_party/libwebrtc/video/frame_cadence_adapter_unittest.cc:313-363 | One step of `AdvanceTo`, callable only when the forward or repeat task is the next task due. Delivers the due frame or repeat and schedules the next repeat by the stream's convergence. |
| CadenceAdapter.FrameCadenceAdapter.FireRefresh | third_party/libwebrtc/video/frame_cadence_adapter_unittest.cc:466-490 | One step of `AdvanceTo`, callable only when the refresh task is the next task due. Requests a refresh frame and re-arms the timer one frame period later. |
| CadenceAdapter.FrameCadenceAdapter.AdvanceTo | third_party/libwebrtc/video/frame_cadence_adapter_unittest.cc:239-267 | Runs the queue until the clock reads `t`. The final state is exactly `Advance` of the initial one, so every lemma about `Advance` holds for it. |

## Left out

- The adapter's implementation file (frame_cadence_adapter.cc) is not part of this model. Behaviour is taken from the unit test and the interface's documented contract. Where the two disagree, the model follows the test:
  - a key-frame request never requests a refresh frame (test lines 433-464 and 651-723);
  - a constraint change to a new max fps stops the current repeat cadence (test lines 882-930).
- The test comments at lines 674-679 and 703-707 describe an idle repeat after a frame entered a converged stream. The setup before them does settle the stream (`ConvergedSetupSettles`), but in the model frame entry resets convergence, which the test at lines 793-836 requires, so that frame is followed by short repeats. The expectations at lines 668-723 hold either way: they count deliveries, and short repeats give the same count.
- Passthrough rate statistics (`UpdateFrameRate` and the rate window) are not modelled. The measured rate is a parameter of `InputFrameRateFps`.
- The metrics recorded at first frame (test lines 932-957) are not modelled: they are histogram side effects.
- The real-time tests (lines 959-1077) run on a real clock and threads, so they are out of scope. What the drift test checks is stated on simulated time: a repeat whose task runs late carries the time actually elapsed (`LateRepeatCarriesElapsedTime`).
- Field-trial parsing is not modelled: the trial is the boolean `Config.zeroHertzTrial`. A trial that is not configured at all counts as `zeroHertzTrial = true`: with no field trials, zero-hertz mode still activates (test lines 943-957).
- The grace-period count and the idle repeat period are configuration values: `Config.refreshGracePeriods` and `Config.idleRepeatPeriod`.
- `Initialize` and the callback binding are left out. The callback is the event log.
- Frame pixel data is left out: a frame is an id and two timestamps.
- Calls other than `OnFrame` are not posted to the adapter's queue here. They take effect at once, as the tests observe them.
- Cross-thread hand-over and locking are not modelled.
- Time is integer microseconds with no overflow. Frame periods truncate to whole microseconds and are at least 1 µs.
- Frame rates are integers. The interface takes max fps and the source restriction as floating-point rates (test lines 743, 896 and 950), so a fractional rate or one below 1 fps cannot be expressed here.
- Disabling a layer takes it out of the convergence decision. When every other enabled layer has converged, the stream is then settled, so `LayerStatusUnsettles` promises an unsettled stream only for enabling.
