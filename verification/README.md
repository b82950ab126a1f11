# Volume-down ×3 SOS detector — Dafny model

The Saheli Android activity (`MainActivity`) lets the user raise an SOS by
pressing volume-down three times in quick succession. Every volume-down key
event, from the foreground `onKeyDown` handler or from the media-session
callback, calls `handleVolumeDown`. That handler is a small state machine over
two fields:

- `lastVolumePress`, the time of the last accepted press, which starts at 0;
- `volumeTimestamps`, the window list of accepted presses.

It works with three constants: 3 presses, a 2000 ms window and a 300 ms
debounce. A press is dropped when it comes less than 300 ms after the last
accepted press. Otherwise it becomes the last accepted press. Entries more
than 2000 ms old are then removed from the window and the press is appended.
When the window holds 3 entries it is cleared and the SOS trigger fires.
Releasing the media session (`disableVolumeSos`, `onDestroy`) clears the
window list.

The model has three modules:

- `VolumeSos` (`volume_sos.dfy`) holds the immutable state `Detector(last, window)`,
  the pure `Step(d, now)` that returns the next state and whether the trigger
  fired, `Prune` (the `removeAll` filter) and `Disable`.
- `VolumeSosInvariant` (`invariant.dfy`) holds the invariant kept between calls
  and the exact firing condition.
- `VolumeSosRuns` (`runs.dfy`) feeds whole press sequences to the detector. It
  bounds how often the trigger can fire and works through concrete press
  sequences.

The clock `System.currentTimeMillis()` is the `now` parameter of `Step`.
Kotlin `Long` timestamps are unbounded integers. The SOS dispatch
(`triggerVolumeSos`) is the `fired` output.

Three details of the code are easy to misread; the model follows the code:

- The initial `lastVolumePress` is 0, not "no press yet". A press at a time
  below 300 is therefore debounced, and a press sequence starting at time 0
  loses its first press (`ScenarioStartingAtZero`).
- Disabling clears only the window list. The last accepted press time survives
  a disable/enable cycle, so a press right after re-enabling can still be
  debounced (`DebounceSurvivesDisable`, `ScenarioDisableBetweenPresses`).
- Pruning scans the whole list (`removeAll`). It does not just drop a stale
  prefix. The two agree on chronological windows (`PruneByPrefix`).

## Model

| member | source | states |
|---|---|---|
| VolumeSos.Initial | android/app/src/main/kotlin/com/saheli/saheli/MainActivity.kt:31-35 | the detector starts with an empty window and last accepted press time 0, not "absent" |
| VolumeSos.Prune | android/app/src/main/kotlin/com/saheli/saheli/MainActivity.kt:171 | the survivors are exactly the entries with `now - t <= 2000`, so an entry exactly 2000 ms old is kept; nothing is lost when nothing is stale, something is lost when something is stale, and a debounce-spaced window stays spaced |
| VolumeSos.PruneDistributes | android/app/src/main/kotlin/com/saheli/saheli/MainActivity.kt:171 | pruning distributes over concatenation, so the survivors keep their relative order (it is the order-preserving filter) |
| VolumeSos.PruneSingleton | android/app/src/main/kotlin/com/saheli/saheli/MainActivity.kt:171 | a single entry survives exactly when it is not older than the window |
| VolumeSos.PruneChronologicalSuffix | android/app/src/main/kotlin/com/saheli/saheli/MainActivity.kt:171 | on a chronological window the stale entries form a prefix and pruning is dropping that prefix |
| VolumeSos.PruneByPrefix | android/app/src/main/kotlin/com/saheli/saheli/MainActivity.kt:171 | scanning only up to the first fresh entry gives the same list as the full `removeAll` scan on a chronological window |
| VolumeSos.Step | android/app/src/main/kotlin/com/saheli/saheli/MainActivity.kt:163-179 | a press less than 300 ms after the last accepted one (including a clock that went backwards) changes nothing and does not fire; an accepted press becomes the last press; the window afterwards holds only fresh old entries and the press; the trigger fires iff the fresh old entries plus the press reach 3, and then the window is empty |
| VolumeSos.Disable | android/app/src/main/kotlin/com/saheli/saheli/MainActivity.kt:151-160 | releasing the media session empties the window and keeps the last accepted press time |
| VolumeSosInvariant.InitialValid | android/app/src/main/kotlin/com/saheli/saheli/MainActivity.kt:31-35 | the initial state satisfies the between-calls invariant |
| VolumeSosInvariant.EntriesPrecedeLast | android/app/src/main/kotlin/com/saheli/saheli/MainActivity.kt:168-172 | between calls every window entry is at or before the last accepted press, and all but the newest are at least 300 ms before it |
| VolumeSosInvariant.ValidChronological | android/app/src/main/kotlin/com/saheli/saheli/MainActivity.kt:168-172 | between calls the window is in time order and pruning it keeps exactly its newest entries (a suffix), so the prefix scan of `PruneByPrefix` applies to every window the detector holds |
| VolumeSosInvariant.CheckedWindowAtMostFull | android/app/src/main/kotlin/com/saheli/saheli/MainActivity.kt:171-175 | the list compared against the press count never holds more than 3 entries, so the `>= 3` check is true only at exactly 3 |
| VolumeSosInvariant.StepPreservesValid | android/app/src/main/kotlin/com/saheli/saheli/MainActivity.kt:163-179 | every handler call keeps the window strictly increasing with gaps of at least 300 ms, shorter than 3, ending at the last accepted press, and within 2000 ms of it |
| VolumeSosInvariant.DisablePreservesValid | android/app/src/main/kotlin/com/saheli/saheli/MainActivity.kt:151-160 | clearing the window keeps the invariant |
| VolumeSosInvariant.FiringCondition | android/app/src/main/kotlin/com/saheli/saheli/MainActivity.kt:171-177 | from a valid state a press fires iff it is accepted, two presses are stored, and both satisfy `now - t <= 2000` |
| VolumeSosInvariant.FiringConditionOldest | android/app/src/main/kotlin/com/saheli/saheli/MainActivity.kt:171-177 | equivalently, it fires iff it is accepted, two presses are stored, and the older one is within 2000 ms of `now` |
| VolumeSosInvariant.DuplicateAbsorbed | android/app/src/main/kotlin/com/saheli/saheli/MainActivity.kt:166-168 | a second press less than 300 ms after an accepted one (or earlier than it) has no effect at all |
| VolumeSosInvariant.DebounceSurvivesDisable | android/app/src/main/kotlin/com/saheli/saheli/MainActivity.kt:156-167 | after a disable, a press within 300 ms of the last accepted press is still debounced |
| VolumeSosRuns.Run | android/app/src/main/kotlin/com/saheli/saheli/MainActivity.kt:163-179 | feeds presses to the handler in order, one output per press |
| VolumeSosRuns.RunPreservesValid | android/app/src/main/kotlin/com/saheli/saheli/MainActivity.kt:163-179 | any sequence of presses from a valid state ends in a valid state |
| VolumeSosRuns.FireCountBound | android/app/src/main/kotlin/com/saheli/saheli/MainActivity.kt:175-177 | three times the number of firings plus the final window length never exceeds the starting window length plus the number of accepted presses |
| VolumeSosRuns.NoRefireWithinTwoPresses | android/app/src/main/kotlin/com/saheli/saheli/MainActivity.kt:175-177 | after a firing, no press sequence with at most two accepted presses fires again |
| VolumeSosRuns.RunPrefix | android/app/src/main/kotlin/com/saheli/saheli/MainActivity.kt:163-179 | the outputs of the first k presses do not depend on the presses that follow them, and the first k presses hold no more accepted presses than the whole run |
| VolumeSosRuns.NoRefireBeforeThirdAccepted | android/app/src/main/kotlin/com/saheli/saheli/MainActivity.kt:175-177 | after a firing, no press of any continuation fires while that press and those before it hold at most two accepted presses |
| VolumeSosRuns.ThreePresses | android/app/src/main/kotlin/com/saheli/saheli/MainActivity.kt:163-179 | from an empty window, three presses, the first at least 300 ms after the last accepted press and each later one at least 300 ms after the previous, give `[false, false, true]` when they span at most 2000 ms and never fire when they span more |
| VolumeSosRuns.ThreeWithinWindowFiresOnce | android/app/src/main/kotlin/com/saheli/saheli/MainActivity.kt:174-177 | from any state the detector can be in, three accepted presses spaced at least 300 ms apart and spanning at most 2000 ms fire the trigger exactly once (not necessarily on the third press) |
| VolumeSosRuns.ThreeWithinWindowFires | android/app/src/main/kotlin/com/saheli/saheli/MainActivity.kt:171-177 | from any valid state, one of three such presses fires |
| VolumeSosRuns.ScenarioStoredPressFiresEarly | android/app/src/main/kotlin/com/saheli/saheli/MainActivity.kt:167-177 | presses at 1000, 1500, 1800, 2100 give `[false, false, true, false]`: the stored press at 1000 makes 1800 fire, so 1500, 1800, 2100 do not fire on their own third press |
| VolumeSosRuns.ScenarioThreeQuickPresses | android/app/src/main/kotlin/com/saheli/saheli/MainActivity.kt:163-179 | presses at 1000, 1700, 2500 from start-up give `[false, false, true]` |
| VolumeSosRuns.ScenarioDebouncedDuplicate | android/app/src/main/kotlin/com/saheli/saheli/MainActivity.kt:166-179 | presses at 1000, 1100, 1700, 2900 give `[false, false, false, true]`, because 1100 is debounced and 1000 is exactly 1900 ms old |
| VolumeSosRuns.ScenarioWindowEdge | android/app/src/main/kotlin/com/saheli/saheli/MainActivity.kt:170-177 | at the window edge: presses at 1000, 1700, 3000 fire on the third press, because an entry exactly 2000 ms old is kept, while 1000, 1700, 3001 never fire |
| VolumeSosRuns.ScenarioSpanTooLong | android/app/src/main/kotlin/com/saheli/saheli/MainActivity.kt:170-177 | presses at 1000, 2000, 3001 never fire, because 1000 is pruned at 3001 |
| VolumeSosRuns.ScenarioEarlyPressDebounced | android/app/src/main/kotlin/com/saheli/saheli/MainActivity.kt:35 | a press at 100 is debounced against the initial last press time 0 |
| VolumeSosRuns.ScenarioStartingAtZero | android/app/src/main/kotlin/com/saheli/saheli/MainActivity.kt:35 | runs starting at time 0 (0, 700, 1500 and 0, 100, 700, 1900) never fire, because the press at 0 is debounced against the initial 0 |
| VolumeSosRuns.ScenarioDisableBetweenPresses | android/app/src/main/kotlin/com/saheli/saheli/MainActivity.kt:151-168 | after presses at 1000 and 1700 and a disable, a press at 1800 is still debounced and a press at 2100 starts a new window instead of firing |

## Left out

- Media-session creation, playback state, callback registration, `isActive` and the key-event filter in the callback (MainActivity.kt:112-149, :153-155) are Android platform objects. Both key paths reach the same handler, so both are the same `Step`.
- `initMediaSession` (enable) does not touch the detector's fields, so it has no state effect to model. The foreground `onKeyDown` path keeps calling the handler even while the session is released.
- Method/event channel wiring, the `when (call.method)` dispatch and `triggerVolumeSos`/`runOnUiThread` (MainActivity.kt:38-97, :182-190) are Flutter glue. Firing is the boolean `fired` output.
- `sendSmsNatively` (MainActivity.kt:192-216) consists of foreign `SmsManager` calls and a permission check.
- `System.currentTimeMillis()` is the `now` parameter.
- VolumeSos.Step: does not model Kotlin `Long` overflow in `now - lastVolumePress` and `now - it`, which cannot happen at real timestamps.
- VolumeSos.Disable: does not model an exception thrown by `release()`, which would skip `volumeTimestamps.clear()`. That is a platform failure outside the model.
- Concurrency between the UI-thread key handler and the media-session callback is not modelled. Calls are treated as sequential.
- `SaheliApplication.kt` (a screen on/off broadcast receiver) and `build.gradle.kts` (build configuration) contain no detector logic.
