/**
 * The application facade (src/app.rs): the hotkey-action drain with its
 * transient "position restored" feedback, and the time-of-day formatter.
 *
 * The hotkey channel is the sequence `pending`, filled by `Send`. Each
 * restore call is told by its own entry of `engineOk` whether the
 * pointer-movement engine could be constructed; `now` is the wall clock
 * in milliseconds at the time of the call.
 */
module App {
  import opened Config
  import opened Tracker

  /** Actions the hotkey listener sends to the facade. */
  datatype HotKeyAction = RestorePosition

  /** The facade's transient feedback state. */
  datatype Feedback = Feedback(lastRestoreTime: Option<nat>, visible: bool)

  /** What each queued restore returns: a saved position and a working engine. */
  function RestoreOutcomes(saved: Option<SavedPosition>, engineOk: seq<bool>): (r: seq<bool>)
    ensures |r| == |engineOk|
    ensures forall i :: 0 <= i < |r| ==> (r[i] <==> saved.Some? && engineOk[i])
  {
    seq(|engineOk|, i requires 0 <= i < |engineOk| => saved.Some? && engineOk[i])
  }

  /**
   * The feedback after the restores with the given outcomes, all at time
   * `now`: any success stamps `now` and shows the feedback; with no success
   * the feedback is untouched.
   */
  function DrainFeedback(f: Feedback, outcomes: seq<bool>, now: nat): (r: Feedback)
    ensures true in outcomes ==> r == Feedback(Some(now), true)
    ensures true !in outcomes ==> r == f
    decreases |outcomes|
  {
    if outcomes == [] then f
    else
      var earlier := outcomes[..|outcomes| - 1];
      assert outcomes == earlier + [outcomes[|outcomes| - 1]];
      if outcomes[|outcomes| - 1] then Feedback(Some(now), true)
      else DrainFeedback(f, earlier, now)
  }

  /**
   * A drain over restores of the same saved position: the feedback is shown
   * and stamped with `now` exactly when a position is saved and some engine
   * could be constructed; otherwise it is untouched.
   */
  lemma DrainRestores(f: Feedback, saved: Option<SavedPosition>, engineOk: seq<bool>, now: nat)
    ensures DrainFeedback(f, RestoreOutcomes(saved, engineOk), now)
      == if saved.Some? && true in engineOk then Feedback(Some(now), true) else f
  {
  }

  /** The pointer moves issued by the queued restores. */
  function MovesIssued(saved: Option<SavedPosition>, engineOk: seq<bool>): (r: seq<Point>)
    // never more moves than restores, and every move goes to the saved position
    ensures |r| <= |engineOk|
    ensures saved.None? ==> r == []
    ensures forall i :: 0 <= i < |r| ==> saved.Some? && r[i] == (saved.value.x, saved.value.y)
    decreases |engineOk|
  {
    if engineOk == [] then []
    else
      MovesIssued(saved, engineOk[..|engineOk| - 1])
        + (if saved.Some? && engineOk[|engineOk| - 1] then [(saved.value.x, saved.value.y)] else [])
  }

  /** One move per restore whose engine was available; none without a saved position. */
  lemma {:induction false} MovesIssuedCount(saved: Option<SavedPosition>, engineOk: seq<bool>)
    ensures |MovesIssued(saved, engineOk)| == if saved.Some? then multiset(engineOk)[true] else 0
    decreases |engineOk|
  {
    if engineOk != [] {
      var earlier := engineOk[..|engineOk| - 1];
      assert engineOk == earlier + [engineOk[|engineOk| - 1]];
      MovesIssuedCount(saved, earlier);
    }
  }

  /**
   * One more queued restore, the `i`-th: it appends its move, if any, to
   * those already issued, and a success stamps and shows the feedback.
   */
  lemma DrainOneMore(f: Feedback, saved: Option<SavedPosition>, engineOk: seq<bool>, i: nat, now: nat)
    requires i < |engineOk|
    ensures MovesIssued(saved, engineOk[..i + 1]) == MovesIssued(saved, engineOk[..i])
      + (if saved.Some? && engineOk[i] then [(saved.value.x, saved.value.y)] else [])
    ensures DrainFeedback(f, RestoreOutcomes(saved, engineOk)[..i + 1], now)
      == if saved.Some? && engineOk[i] then Feedback(Some(now), true)
         else DrainFeedback(f, RestoreOutcomes(saved, engineOk)[..i], now)
  {
    assert engineOk[..i + 1][..i] == engineOk[..i];
    var outcomes := RestoreOutcomes(saved, engineOk);
    assert outcomes[..i + 1][..i] == outcomes[..i];
    assert outcomes[..i + 1][i] == (saved.Some? && engineOk[i]);
  }

  /** The clock has not gone back past a visible feedback's stamp. */
  predicate ClockAfter(f: Feedback, now: nat) {
    f.visible && f.lastRestoreTime.Some? ==> f.lastRestoreTime.value <= now
  }

  /** Feedback expiry: clears visibility once the display duration has elapsed. */
  function Expire(f: Feedback, now: nat): (r: Feedback)
    requires ClockAfter(f, now)
    ensures r.lastRestoreTime == f.lastRestoreTime
    // expiry only ever clears visibility
    ensures r.visible ==> f.visible
    ensures f.visible && f.lastRestoreTime.Some? ==>
              (r.visible <==> now - f.lastRestoreTime.value < FEEDBACK_DURATION_MS)
    ensures f.lastRestoreTime.None? ==> r == f
  {
    if f.visible && f.lastRestoreTime.Some? && now - f.lastRestoreTime.value >= FEEDBACK_DURATION_MS
    then f.(visible := false)
    else f
  }

  /** Feedback set by a successful restore survives the expiry of the same call. */
  lemma FreshFeedbackSurvives(f: Feedback, outcomes: seq<bool>, now: nat)
    requires true in outcomes
    ensures ClockAfter(DrainFeedback(f, outcomes, now), now)
    ensures Expire(DrainFeedback(f, outcomes, now), now) == Feedback(Some(now), true)
  {
  }

  /** A drain of an empty queue leaves the stamp alone and only expires. */
  lemma EmptyDrainOnlyExpires(f: Feedback, now: nat)
    requires ClockAfter(f, now)
    ensures ClockAfter(DrainFeedback(f, [], now), now)
    ensures Expire(DrainFeedback(f, [], now), now).lastRestoreTime == f.lastRestoreTime
    ensures Expire(DrainFeedback(f, [], now), now).visible ==> f.visible
  {
  }

  class MouseMinderApp {
    const tracker: MouseTracker
    /** Actions sent by the hotkey listener and not yet received. */
    var pending: seq<HotKeyAction>
    var lastRestoreTime: Option<nat>
    var feedbackVisible: bool

    function FeedbackState(): Feedback
      reads this
    {
      Feedback(lastRestoreTime, feedbackVisible)
    }

    /** A new facade owning a new tracker started at `startTime`. */
    constructor (startTime: nat)
      ensures fresh(tracker)
      ensures tracker.State() == Initial(startTime)
      ensures tracker.moves == [] && tracker.restores == 0
      ensures pending == [] && FeedbackState() == Feedback(None, false)
    {
      tracker := new MouseTracker(startTime);
      pending := [];
      lastRestoreTime := None;
      feedbackVisible := false;
    }

    /** The hotkey listener's send on the action channel. */
    method Send(action: HotKeyAction)
      modifies this`pending
      ensures pending == old(pending) + [action]
    {
      pending := pending + [action];
    }

    /**
     * Receives every pending action, restoring the pointer once per action
     * and showing the feedback, stamped `now`, after each successful restore.
     */
    method DrainHotkeys(now: nat, engineOk: seq<bool>)
      requires |engineOk| == |pending|
      modifies this`pending, this`lastRestoreTime, this`feedbackVisible
      modifies tracker`moves, tracker`restores
      ensures pending == []
      ensures tracker.restores == old(tracker.restores) + |old(pending)|
      ensures tracker.moves == old(tracker.moves) + MovesIssued(tracker.saved, engineOk)
      ensures FeedbackState() == DrainFeedback(old(FeedbackState()), RestoreOutcomes(tracker.saved, engineOk), now)
    {
      ghost var saved, before := tracker.saved, FeedbackState();
      ghost var outcomes := RestoreOutcomes(saved, engineOk);
      var i := 0;
      while pending != []
        invariant 0 <= i <= |engineOk|
        invariant pending == old(pending)[i..]
        invariant tracker.saved == saved
        invariant tracker.restores == old(tracker.restores) + i
        invariant tracker.moves == old(tracker.moves) + MovesIssued(saved, engineOk[..i])
        invariant FeedbackState() == DrainFeedback(before, outcomes[..i], now)
        decreases |pending|
      {
        var action := pending[0];
        pending := pending[1..];
        match action {
          case RestorePosition =>
            var ok := tracker.Restore(engineOk[i]);
            if ok {
              lastRestoreTime := Some(now);
              feedbackVisible := true;
            }
        }
        DrainOneMore(before, saved, engineOk, i, now);
        i := i + 1;
      }
      assert engineOk[..i] == engineOk && outcomes[..i] == outcomes;
    }

    /**
     * Drains the pending actions, then hides the feedback once the display
     * duration has elapsed since the last successful restore.
     */
    method HandleHotkeys(now: nat, engineOk: seq<bool>)
      requires |engineOk| == |pending|
      requires ClockAfter(DrainFeedback(FeedbackState(), RestoreOutcomes(tracker.saved, engineOk), now), now)
      modifies this`pending, this`lastRestoreTime, this`feedbackVisible
      modifies tracker`moves, tracker`restores
      ensures pending == []
      ensures tracker.restores == old(tracker.restores) + |old(pending)|
      ensures tracker.moves == old(tracker.moves) + MovesIssued(tracker.saved, engineOk)
      ensures tracker.State() == old(tracker.State())
      ensures FeedbackState() == Expire(DrainFeedback(old(FeedbackState()), RestoreOutcomes(tracker.saved, engineOk), now), now)
    {
      DrainHotkeys(now, engineOk);
      if feedbackVisible {
        match lastRestoreTime {
          case Some(time) =>
            // the stamp read after the drain is no later than `now`
            if now - time >= FEEDBACK_DURATION_MS {
              feedbackVisible := false;
            }
          case None =>
        }
      }
    }
  }

  /** Hours and minutes divide a day, so reducing modulo a day first changes nothing. */
  lemma ModNested(secs: nat)
    ensures secs % 3600 == (secs % 86400) % 3600
    ensures secs % 60 == (secs % 3600) % 60
  {
    var q := secs / 86400;
    var r := secs % 86400;
    assert secs == 3600 * (24 * q + r / 3600) + r % 3600;
    var h := secs / 3600;
    assert secs == 60 * (60 * h + (secs % 3600) / 60) + (secs % 3600) % 60;
  }

  /** The hours, minutes and seconds of the day `secs` seconds after the epoch. */
  function TimeOfDay(secs: nat): (t: (nat, nat, nat))
    ensures t.0 < 24 && t.1 < 60 && t.2 < 60
    ensures t.0 * 3600 + t.1 * 60 + t.2 == secs % 86400
  {
    ModNested(secs);
    var r := secs % 86400;
    assert r == 3600 * (r / 3600) + r % 3600;
    assert r % 3600 == 60 * ((r % 3600) / 60) + (r % 3600) % 60;
    ((secs % 86400) / 3600, (secs % 3600) / 60, secs % 60)
  }

  function Digit(d: nat): (c: char)
    requires d < 10
    ensures '0' <= c <= '9'
  {
    (48 + d) as char
  }

  function DigitValue(c: char): (d: nat)
    requires '0' <= c <= '9'
    ensures d < 10
  {
    (c as int - 48) as nat
  }

  /** A number below 100 as two zero-padded decimal digits. */
  function Pad2(n: nat): (r: string)
    requires n < 100
    ensures |r| == 2 && '0' <= r[0] <= '9' && '0' <= r[1] <= '9'
    ensures DigitValue(r[0]) * 10 + DigitValue(r[1]) == n
  {
    [Digit(n / 10), Digit(n % 10)]
  }

  /** Reads back a two-digit field at `k`, if it is one. */
  function Field(s: string, k: nat): Option<nat>
    requires k + 2 <= |s|
  {
    if '0' <= s[k] <= '9' && '0' <= s[k + 1] <= '9'
    then Some(DigitValue(s[k]) * 10 + DigitValue(s[k + 1]))
    else None
  }

  /** Parses `HH:MM:SS` back into its three fields. */
  function ParseClock(s: string): Option<(nat, nat, nat)> {
    if |s| != 8 || s[2] != ':' || s[5] != ':' then None
    else match (Field(s, 0), Field(s, 3), Field(s, 6))
      case (Some(h), Some(m), Some(sec)) => Some((h, m, sec))
      case _ => None
  }

  /** The zero-padded `HH:MM:SS` time of day of a timestamp in ms since the epoch. */
  function FormatTime(timeMs: nat): (r: string)
    ensures |r| == 8 && r[2] == ':' && r[5] == ':'
    ensures ParseClock(r) == Some(TimeOfDay(timeMs / 1000))
  {
    var (hours, minutes, seconds) := TimeOfDay(timeMs / 1000);
    Pad2(hours) + ":" + Pad2(minutes) + ":" + Pad2(seconds)
  }
}
