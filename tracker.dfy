/**
 * The idle-detection tracker (src/tracker.rs).
 *
 * The shared tracking flag and the saved position, which the source keeps
 * behind mutexes, are plain fields of the class `MouseTracker`; so is the
 * polling thread's local bookkeeping (`lastPosition`, `lastMovementTime`).
 * One iteration of the polling loop is the method `Tick`, whose effect is
 * specified by the pure function `Step`; a run of iterations is `Run`.
 * Time is a millisecond clock passed in by the caller, the sampled pointer
 * coordinates are an input, and every absolute pointer move is recorded in
 * the ghost log `moves`.
 */
module Tracker {
  import opened Config

  datatype Option<T> = None | Some(value: T)

  /** A 32-bit signed screen coordinate, as reported by the pointer device. */
  newtype i32 = v: int | -0x8000_0000 <= v < 0x8000_0000

  /** A pair of absolute pointer coordinates `(x, y)`. */
  type Point = (i32, i32)

  /** A saved resting position and the time (ms) it was captured. */
  datatype SavedPosition = SavedPosition(x: i32, y: i32, timestamp: nat)

  /** The whole state of the tracker: the shared flag and saved position,
      and the poller's local bookkeeping. */
  datatype TrackerState = TrackerState(
    tracking: bool,
    saved: Option<SavedPosition>,
    lastPosition: Point,
    lastMovementTime: nat)

  /** One sample taken by the polling loop: the clock and the pointer. */
  datatype Sample = Sample(now: nat, pos: Point)

  /** The stored position, if any, is at the coordinates `p`. */
  predicate SavedAt(saved: Option<SavedPosition>, p: Point) {
    saved.Some? && saved.value.x == p.0 && saved.value.y == p.1
  }

  /** The tracker as the thread-spawning constructor leaves it. */
  function Initial(startTime: nat): TrackerState {
    TrackerState(false, None, (0, 0), startTime)
  }

  /**
   * One iteration of the polling loop, taken at time `now` with the pointer
   * sampled at `pos`: nothing while disabled; movement restarts the idle
   * clock; stillness for at least the threshold saves the sample unless the
   * stored position already has those coordinates.
   */
  function Step(s: TrackerState, now: nat, pos: Point): (r: TrackerState)
    requires s.lastMovementTime <= now
    // a tick never touches the tracking flag and keeps the idle clock in the past
    ensures r.tracking == s.tracking
    ensures r.lastMovementTime <= now
    // disabled: nothing at all changes
    ensures !s.tracking ==> r == s
    // movement: the idle clock restarts at the new position, no save
    ensures s.tracking && pos != s.lastPosition ==>
              r.lastPosition == pos && r.lastMovementTime == now && r.saved == s.saved
    // stillness: the poller's bookkeeping stays as it was
    ensures pos == s.lastPosition ==>
              r.lastPosition == s.lastPosition && r.lastMovementTime == s.lastMovementTime
    // the saved position is rewritten exactly when the pointer has been still
    // for the threshold and the store does not already hold these coordinates
    ensures r.saved != s.saved <==>
              s.tracking && pos == s.lastPosition &&
              now - s.lastMovementTime >= INACTIVITY_THRESHOLD_MS && !SavedAt(s.saved, pos)
    // and each write replaces it whole with the sample and the tick time
    ensures r.saved != s.saved ==> r.saved == Some(SavedPosition(pos.0, pos.1, now))
  {
    if !s.tracking then s
    else if pos != s.lastPosition then s.(lastPosition := pos, lastMovementTime := now)
    else if now - s.lastMovementTime >= INACTIVITY_THRESHOLD_MS && !SavedAt(s.saved, pos) then
      s.(saved := Some(SavedPosition(pos.0, pos.1, now)))
    else s
  }

  /** Sample times never go back and never precede `start`. */
  predicate Chronological(start: nat, ts: seq<Sample>)
    decreases |ts|
  {
    ts == [] || (start <= ts[0].now && Chronological(ts[0].now, ts[1..]))
  }

  /** An earlier start keeps a run chronological. */
  lemma ChronologicalWeaken(earlier: nat, start: nat, ts: seq<Sample>)
    requires earlier <= start && Chronological(start, ts)
    ensures Chronological(earlier, ts)
  {
  }

  /** Consecutive iterations of the polling loop over the samples `ts`. */
  function Run(s: TrackerState, ts: seq<Sample>): (r: TrackerState)
    requires Chronological(s.lastMovementTime, ts)
    ensures r.tracking == s.tracking
    ensures !s.tracking ==> r == s
    decreases |ts|
  {
    if ts == [] then s
    else
      var s1 := Step(s, ts[0].now, ts[0].pos);
      ChronologicalWeaken(s1.lastMovementTime, ts[0].now, ts[1..]);
      Run(s1, ts[1..])
  }

  /** Every sample has the pointer at `p`. */
  predicate AllAt(ts: seq<Sample>, p: Point) {
    forall i :: 0 <= i < |ts| ==> ts[i].pos == p
  }

  function Last(ts: seq<Sample>): Sample
    requires ts != []
  {
    ts[|ts| - 1]
  }

  /** The time from which the pointer counts as still at `p` over `ts`. */
  function IdleSince(s: TrackerState, ts: seq<Sample>, p: Point): nat
    requires ts != []
  {
    if s.lastPosition == p then s.lastMovementTime else ts[0].now
  }

  lemma {:induction false} ChronologicalBounds(start: nat, ts: seq<Sample>)
    requires Chronological(start, ts) && ts != []
    ensures start <= ts[0].now <= Last(ts).now
    decreases |ts|
  {
    if |ts| > 1 {
      ChronologicalBounds(ts[0].now, ts[1..]);
      assert Last(ts[1..]) == Last(ts);
    }
  }

  /**
   * Deduplication: once the store holds `p`, any number of further ticks
   * with the pointer still at `p` leave it, timestamp included, unchanged.
   */
  lemma {:induction false} StillnessKeepsSaved(s: TrackerState, ts: seq<Sample>, p: Point)
    requires Chronological(s.lastMovementTime, ts)
    requires SavedAt(s.saved, p) && AllAt(ts, p)
    ensures Run(s, ts).saved == s.saved
    decreases |ts|
  {
    if ts != [] {
      var s1 := Step(s, ts[0].now, ts[0].pos);
      assert ts[0].pos == p;
      StillnessKeepsSaved(s1, ts[1..], p);
    }
  }

  /**
   * Idle-triggered save: while tracking, if the pointer stays at `p` until
   * at least the threshold has elapsed since it came to rest there, the store
   * ends up holding `p`; a newly written entry is stamped no earlier than the
   * moment the threshold elapsed and no later than the last sample.
   */
  lemma {:induction false} IdleSaves(s: TrackerState, ts: seq<Sample>, p: Point)
    requires s.tracking
    requires Chronological(s.lastMovementTime, ts)
    requires ts != [] && AllAt(ts, p)
    requires Last(ts).now >= IdleSince(s, ts, p) + INACTIVITY_THRESHOLD_MS
    ensures SavedAt(Run(s, ts).saved, p)
    ensures !SavedAt(s.saved, p) ==>
              IdleSince(s, ts, p) + INACTIVITY_THRESHOLD_MS <= Run(s, ts).saved.value.timestamp <= Last(ts).now
    decreases |ts|
  {
    assert ts[0].pos == p;
    var s1 := Step(s, ts[0].now, p);
    ChronologicalBounds(s.lastMovementTime, ts);
    if s.lastPosition == p && ts[0].now - s.lastMovementTime >= INACTIVITY_THRESHOLD_MS {
      assert SavedAt(s1.saved, p);
      assert !SavedAt(s.saved, p) ==> s1.saved.value.timestamp == ts[0].now;
      StillnessKeepsSaved(s1, ts[1..], p);
    } else {
      assert |ts| > 1;
      assert Last(ts[1..]) == Last(ts);
      assert IdleSince(s1, ts[1..], p) == IdleSince(s, ts, p);
      IdleSaves(s1, ts[1..], p);
    }
  }

  class MouseTracker {
    var tracking: bool
    var saved: Option<SavedPosition>
    var lastPosition: Point
    var lastMovementTime: nat
    /** Every absolute pointer move issued, in order. */
    ghost var moves: seq<Point>
    /** How many times `Restore` has been called. */
    ghost var restores: nat

    function State(): TrackerState
      reads this
    {
      TrackerState(tracking, saved, lastPosition, lastMovementTime)
    }

    /** A new tracker, with its poller started at `startTime`. */
    constructor (startTime: nat)
      ensures State() == Initial(startTime)
      ensures moves == [] && restores == 0
    {
      tracking := false;
      saved := None;
      lastPosition := (0, 0);
      lastMovementTime := startTime;
      moves := [];
      restores := 0;
    }

    /** One iteration of the polling loop at time `now`, the pointer at `current`. */
    method Tick(now: nat, current: Point)
      requires lastMovementTime <= now
      modifies this`lastPosition, this`lastMovementTime, this`saved
      ensures State() == Step(old(State()), now, current)
    {
      if tracking {
        if current.0 != lastPosition.0 || current.1 != lastPosition.1 {
          lastMovementTime := now;
          lastPosition := current;
        } else {
          var elapsed := now - lastMovementTime;
          if elapsed >= INACTIVITY_THRESHOLD_MS {
            var shouldUpdate := match saved
              case None => true
              case Some(p) => p.x != current.0 || p.y != current.1;
            if shouldUpdate {
              saved := Some(SavedPosition(current.0, current.1, now));
            }
          }
        }
      }
    }

    /** A finite stretch of the polling loop, one `Tick` per sample. */
    method RunPolling(ts: seq<Sample>)
      requires Chronological(lastMovementTime, ts)
      modifies this`lastPosition, this`lastMovementTime, this`saved
      ensures State() == Run(old(State()), ts)
    {
      var i := 0;
      while i < |ts|
        invariant 0 <= i <= |ts|
        invariant Chronological(lastMovementTime, ts[i..])
        invariant Run(State(), ts[i..]) == Run(old(State()), ts)
      {
        assert ts[i..][1..] == ts[i + 1..];
        Tick(ts[i].now, ts[i].pos);
        i := i + 1;
      }
    }

    method StartTracking()
      modifies this`tracking
      ensures State() == old(State()).(tracking := true)
    {
      tracking := true;
    }

    method StopTracking()
      modifies this`tracking
      ensures State() == old(State()).(tracking := false)
    {
      tracking := false;
    }

    method IsTracking() returns (b: bool)
      ensures b == tracking
    {
      b := tracking;
    }

    /** A copy of the saved position; changes nothing. */
    method GetSavedPosition() returns (p: Option<SavedPosition>)
      ensures p == saved
    {
      p := saved;
    }

    method ResetPosition()
      modifies this`saved
      ensures State() == old(State()).(saved := None)
    {
      saved := None;
    }

    /**
     * Moves the pointer to the saved position. `engineOk` says whether the
     * pointer-movement engine could be constructed. Succeeds, issuing exactly
     * one absolute move, only when a position is saved and the engine exists;
     * otherwise issues nothing. Never changes the tracker's state.
     */
    method Restore(engineOk: bool) returns (ok: bool)
      modifies this`moves, this`restores
      ensures ok <==> saved.Some? && engineOk
      ensures moves == old(moves) + (if ok then [(saved.value.x, saved.value.y)] else [])
      ensures restores == old(restores) + 1
    {
      restores := restores + 1;
      var pos := GetSavedPosition();
      if pos.Some? {
        if engineOk {
          moves := moves + [(pos.value.x, pos.value.y)];
          return true;
        }
      }
      return false;
    }

    /** Dropping the tracker switches tracking off. */
    method Drop()
      modifies this`tracking
      ensures State() == old(State()).(tracking := false)
    {
      tracking := false;
    }
  }
}
