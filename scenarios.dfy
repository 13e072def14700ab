/**
 * Client walk-throughs of the tracker and the facade, proved from the
 * contracts alone: idle saving, deduplication, disabled tracking, reset,
 * restore without data, and the hotkey round trip with feedback expiry.
 */
module Scenarios {
  import opened Tracker
  import opened App

  method IdleSaveAndDeduplication() {
    var t := new MouseTracker(0);
    t.StartTracking();
    t.StartTracking();
    var on := t.IsTracking();
    assert on;

    t.Tick(50, (100, 200));     // the pointer moved: the idle clock restarts at 50
    t.Tick(1000, (100, 200));   // still, but not for long enough
    assert t.saved == None;
    t.Tick(2050, (100, 200));   // still for the threshold: saved
    assert t.saved == Some(SavedPosition(100, 200, 2050));
    t.Tick(9000, (100, 200));   // still longer: same coordinates, no new write
    assert t.saved == Some(SavedPosition(100, 200, 2050));
  }

  method StopResetAndRestoreWithoutData() {
    var t := new MouseTracker(0);
    t.StartTracking();
    t.Tick(50, (100, 200));
    t.Tick(2050, (100, 200));
    assert t.saved == Some(SavedPosition(100, 200, 2050));

    t.StopTracking();
    t.StopTracking();
    var on := t.IsTracking();
    assert !on && t.saved == Some(SavedPosition(100, 200, 2050));

    t.ResetPosition();
    var p := t.GetSavedPosition();
    assert p == None;
    var ok := t.Restore(true);
    assert !ok && t.moves == [];
  }

  method DisabledTrackingSuppressesSaves() {
    var t := new MouseTracker(0);
    t.Tick(50, (100, 200));
    t.Tick(5000, (100, 200));
    t.Tick(10000, (100, 200));
    assert t.saved == None && t.lastPosition == (0, 0);
  }

  method HotkeyRoundTrip() {
    var app := new MouseMinderApp(0);
    var t := app.tracker;
    t.StartTracking();
    t.Tick(50, (100, 200));
    t.Tick(2050, (100, 200));

    app.Send(RestorePosition);
    app.HandleHotkeys(3000, [true]);
    assert t.restores == 1 && t.moves == [(100, 200)];
    assert app.pending == [] && app.feedbackVisible && app.lastRestoreTime == Some(3000);

    app.HandleHotkeys(3500, []);   // nothing queued: no restore, feedback still shown
    assert t.restores == 1 && app.feedbackVisible && app.lastRestoreTime == Some(3000);

    app.HandleHotkeys(5000, []);   // the display duration has elapsed
    assert !app.feedbackVisible && app.lastRestoreTime == Some(3000);
  }
}
