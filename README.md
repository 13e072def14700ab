# MouseMinder core, modelled in Dafny

MouseMinder watches the mouse pointer in the background. Once the pointer has
been still for two seconds it saves that resting position. The global hotkey
Ctrl/Cmd+Shift+R moves the pointer back to it. The window's buttons start and
stop tracking and reset the saved position. This project models the
sequential logic under the threads and the UI:

- `config.dfy` (module `Config`): the inactivity threshold and the feedback
  duration, both 2000 ms.
- `tracker.dfy` (module `Tracker`): the idle-detection tracker `MouseTracker`.
  The tracking flag and the saved position sit behind mutexes in the source.
  Here they are plain fields, beside the polling thread's own bookkeeping
  (`lastPosition`, `lastMovementTime`). One iteration of the polling loop is
  the method `Tick(now, current)`. Its effect is the pure function `Step` on
  `TrackerState`. A run of iterations is `Run`, executed by `RunPolling`.
  The lemmas `IdleSaves` and `StillnessKeepsSaved` state the idle-save and
  deduplication guarantees over whole runs.
- `app.dfy` (module `App`): the facade `MouseMinderApp`. `HandleHotkeys`
  first drains the hotkey action queue with `DrainHotkeys`, which calls
  `Restore` once per action. It then expires the "position restored"
  feedback. The pure formatter `FormatTime` renders a time of day as
  `HH:MM:SS`.
- `scenarios.dfy` (module `Scenarios`): client walk-throughs proved from the
  contracts alone. They cover idle saving, deduplication, idempotent
  start/stop, disabled tracking, reset, restore without data, and the hotkey
  round trip with feedback expiry.

Inputs from the outside world become parameters:

- Time is one millisecond clock, `now: nat`, passed to every operation that
  reads a clock.
- The sampled pointer coordinates are an argument of `Tick`.
- Whether the pointer-movement engine can be constructed is the argument
  `engineOk` of `Restore`. `HandleHotkeys` takes one such outcome per queued
  action.
- Every absolute pointer move is appended to the ghost log `moves`. The ghost
  counter `restores` counts restore calls.

Notes on the source's behaviour:

- Feedback expiry runs at the end of every `handle_hotkeys` call
  (src/app.rs:55-61), after the queue has been drained.
- The last restore time is optional (src/app.rs:14). Visible feedback without
  a stamp therefore never expires.
- Reading the pointer position has no failure path (src/tracker.rs:53).

## Model

| member | source | states |
|---|---|---|
| `Tracker.Step` | src/tracker.rs:49-81 | A tick never changes the tracking flag, and a disabled tick changes nothing. Movement restarts the idle clock at the new position without saving. The saved position is rewritten exactly when the pointer has been still for at least 2000 ms and the store does not already hold those coordinates. Each write replaces the whole entry with the sample and the tick time. |
| `Tracker.Run` | src/tracker.rs:47-85 | Any number of polling iterations keeps the tracking flag. While tracking is disabled they leave the whole state unchanged, so nothing is ever saved. |
| `Tracker.StillnessKeepsSaved` | src/tracker.rs:64-78 | Deduplication: once the store holds `p`, further ticks with the pointer at `p` never rewrite it, and its timestamp does not advance. |
| `Tracker.IdleSaves` | src/tracker.rs:55-79 | Idle-triggered save: while tracking, a pointer held at `p` until 2000 ms after it came to rest leaves `p` saved. A new entry is stamped no earlier than the moment the threshold elapsed and no later than the last sample. |
| `Tracker.MouseTracker.constructor` | src/tracker.rs:23-45 | A new tracker is not tracking and has nothing saved. Its poller starts at `(0,0)` with the idle clock at the start time. No move has been issued. |
| `Tracker.MouseTracker.Tick` | src/tracker.rs:49-81 | One iteration of the polling loop changes the state exactly as `Step` says. |
| `Tracker.MouseTracker.RunPolling` | src/tracker.rs:47-85 | A stretch of the polling loop, one tick per sample, changes the state exactly as `Run` says. |
| `Tracker.MouseTracker.StartTracking` | src/tracker.rs:90-93 | Tracking becomes enabled and nothing else changes. The call is idempotent. |
| `Tracker.MouseTracker.StopTracking` | src/tracker.rs:96-99 | Tracking becomes disabled. The saved position and everything else are kept. The call is idempotent. |
| `Tracker.MouseTracker.IsTracking` | src/tracker.rs:102-104 | Returns the tracking flag and changes nothing. |
| `Tracker.MouseTracker.GetSavedPosition` | src/tracker.rs:107-109 | Returns a copy of the saved position and changes nothing. |
| `Tracker.MouseTracker.ResetPosition` | src/tracker.rs:112-115 | The saved position becomes none and nothing else changes. |
| `Tracker.MouseTracker.Restore` | src/tracker.rs:118-127 | Returns true iff a position is saved and the movement engine is available. Then it issues exactly one absolute move to the saved `(x, y)`; otherwise it issues none. The tracking flag and the saved position never change. |
| `Tracker.MouseTracker.Drop` | src/tracker.rs:130-135 | Dropping the tracker switches tracking off and changes nothing else. |
| `App.DrainFeedback` | src/app.rs:42-52 | After a drain, any successful restore leaves the feedback visible and stamped with `now`. With no success, the feedback and its stamp are untouched; this includes the empty queue. |
| `App.DrainRestores` | src/app.rs:42-52 | After restores of one saved position, the feedback is visible and stamped with `now` exactly when a position is saved and some engine was available. Otherwise the feedback and its stamp are untouched. |
| `App.MovesIssued` | src/app.rs:42-50 | A drain never issues more moves than restores, and every move goes to the saved position. Without a saved position it issues none. |
| `App.MovesIssuedCount` | src/app.rs:42-50 | A drain issues exactly one move per restore whose engine was available, or none when no position is saved. |
| `App.Expire` | src/app.rs:55-61 | Expiry keeps the stamp and only ever clears visibility. Visible, stamped feedback stays visible exactly while fewer than 2000 ms have elapsed. |
| `App.FreshFeedbackSurvives` | src/app.rs:42-61 | Feedback set by a restore during a call survives that call's expiry. |
| `App.EmptyDrainOnlyExpires` | src/app.rs:42-61 | Handling an empty queue leaves the last restore time unchanged and can only hide the feedback. |
| `App.MouseMinderApp.constructor` | src/app.rs:19-38 | A new facade owns a fresh, idle tracker. Its queue is empty, it has no restore time, and its feedback is hidden. |
| `App.MouseMinderApp.Send` | src/hotkeys.rs:40-41 | A hotkey press appends one `RestorePosition` action to the queue. |
| `App.MouseMinderApp.DrainHotkeys` | src/app.rs:42-52 | Every pending action is consumed and the queue ends empty. Restore is called exactly once per action, and the moves issued are `MovesIssued`. The new feedback is `DrainFeedback` of the restore outcomes. |
| `App.MouseMinderApp.HandleHotkeys` | src/app.rs:41-62 | The queue ends empty, restore is called once per action, the moves issued are `MovesIssued`, and the tracker's state is untouched. The new feedback is the drained feedback after expiry. Its precondition is exactly the condition under which the expiry check does not panic. |
| `App.TimeOfDay` | src/app.rs:66-71 | Hours are below 24, and minutes and seconds below 60. Together they recompose the seconds elapsed since midnight, `secs % 86400`. |
| `App.Pad2` | src/app.rs:73 | A number below 100 becomes exactly two decimal digits that read back as that number. |
| `App.FormatTime` | src/app.rs:65-74 | The output is always 8 characters, with ':' at indices 2 and 5. Parsing it back yields exactly the hours, minutes and seconds of the timestamp's time of day. |

## Left out

- Threads, `Arc<Mutex<…>>`, `thread::sleep` and the endless polling loop (src/tracker.rs:42-47, 84): a tick is one iteration, and `RunPolling` runs a finite stretch. Races between a restore and a concurrent save are not modelled.
- Pointer sampling through `device_query` (src/tracker.rs:43, 53) is an argument of `Tick`.
- Pointer movement through `Enigo` (src/tracker.rs:120-122) is a ghost log of moves. The result of `move_mouse` is ignored, as in the source.
- The two clocks, `Instant` and `SystemTime`, are one `nat` millisecond clock. The `as_millis() as u64` truncation and sub-millisecond precision are not modelled.
- The panic of `elapsed().unwrap()` on a clock that went back (src/app.rs:57) is excluded by a precondition of `HandleHotkeys`. It demands only what the source needs: the stamp read after the drain, if visible, is no later than `now`.
- The panic of `duration_since(UNIX_EPOCH).unwrap()` on a time before the epoch (src/app.rs:66) is excluded by taking the time as a `nat`.
- App.MouseMinderApp.HandleHotkeys: one `now` serves the whole call. The source reads the clock again for each successful restore (src/app.rs:47) and for the expiry check.
- App.FreshFeedbackSurvives: holds because the stamp and the expiry check read the same `now`, so no time elapses between them. In the source, feedback set during a call survives that call only if the rest of the drain after the last success takes under 2000 ms.
- src/hotkeys.rs is not part of this model beyond `Send`. That excludes the listener thread, the manager and registration, and the event filter (pressed and matching id). The queue contents are the input. So is the facade constructor's `expect` on the hotkey system (src/app.rs:27).
- All egui rendering (src/app.rs:77-364) and src/main.rs are UI and bootstrap code.
- `POLL_INTERVAL_MS` and `UI_REFRESH_INTERVAL_MS` only pace the threads and the UI, so they are not modelled.
