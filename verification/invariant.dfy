/**
 The invariant the volume-down detector keeps between calls, and the exact
 condition under which a press fires the SOS trigger.
 */
module VolumeSosInvariant {
  import opened VolumeSos

  /**
   Between calls the window is spaced by at least the debounce interval, holds
   fewer presses than fire the trigger, ends with the last accepted press, and
   holds nothing older than the detection window as seen from that press.
   */
  predicate Valid(d: Detector)
  {
    && Spaced(d.window)
    && |d.window| < PressCount
    && (|d.window| > 0 ==> d.window[|d.window| - 1] == d.last)
    && (forall t :: t in d.window ==> !Stale(t, d.last))
  }

  /** The detector starts in a valid state. */
  lemma InitialValid()
    ensures Valid(Initial())
  {
  }

  /**
   In a valid state every window entry is at or before the last accepted
   press, and every entry but the newest is a full debounce interval before it.
   */
  lemma EntriesPrecedeLast(d: Detector)
    requires Valid(d)
    ensures forall t :: t in d.window ==> t <= d.last
    ensures forall i :: 0 <= i < |d.window| - 1 ==> d.window[i] + DebounceMs <= d.last
  {
    forall t | t in d.window
      ensures t <= d.last
    {
      var i :| 0 <= i < |d.window| && d.window[i] == t;
      if i < |d.window| - 1 {
        assert d.window[|d.window| - 1] - d.window[i] >= DebounceMs;
      }
    }
  }

  /**
   Every window the detector holds between calls is in time order, so pruning
   it keeps exactly its newest entries: the prefix scan of `PruneByPrefix`
   applies to every window the handler sees.
   */
  lemma ValidChronological(d: Detector, now: int)
    requires Valid(d)
    ensures Chronological(d.window)
    ensures Prune(d.window, now) == d.window[|d.window| - |Prune(d.window, now)|..]
  {
  }

  /**
   In a valid state an accepted press finds at most two fresh entries, so the
   list that is checked against the press count is never longer than three:
   the check fires only when the list holds exactly three presses.
   */
  lemma CheckedWindowAtMostFull(d: Detector, now: int)
    requires Valid(d)
    ensures |Prune(d.window, now) + [now]| <= PressCount
  {
  }

  /** Every call of the handler keeps the invariant. */
  lemma StepPreservesValid(d: Detector, now: int)
    requires Valid(d)
    ensures Valid(Step(d, now).next)
  {
    var r := Step(d, now);
    if Accepts(d, now) && !r.fired {
      var p := Prune(d.window, now);
      assert r.next.window == p + [now];
      EntriesPrecedeLast(d);
      forall i, j | 0 <= i < j < |r.next.window|
        ensures r.next.window[j] - r.next.window[i] >= DebounceMs
      {
        assert j == |r.next.window| - 1;
        assert r.next.window[i] in d.window;
      }
    }
  }

  /** Disabling keeps the invariant. */
  lemma DisablePreservesValid(d: Detector)
    requires Valid(d)
    ensures Valid(Disable(d))
  {
  }

  /**
   The exact firing condition: from a valid state a press fires the trigger if
   and only if it passes the debounce check, two presses are stored, and
   neither of them has fallen out of the detection window.
   */
  lemma FiringCondition(d: Detector, now: int)
    requires Valid(d)
    ensures Step(d, now).fired <==>
              && Accepts(d, now)
              && |d.window| == PressCount - 1
              && forall t :: t in d.window ==> !Stale(t, now)
  {
    if Accepts(d, now) && |d.window| == PressCount - 1 && !(forall t :: t in d.window ==> !Stale(t, now)) {
      assert |Prune(d.window, now)| < |d.window|;
    }
  }

  /**
   The same condition stated on the oldest stored press: with two spaced
   presses stored, the press fires exactly when the older one is still inside
   the detection window.
   */
  lemma FiringConditionOldest(d: Detector, now: int)
    requires Valid(d)
    ensures Step(d, now).fired <==>
              Accepts(d, now) && |d.window| == PressCount - 1 && !Stale(d.window[0], now)
  {
    FiringCondition(d, now);
    if |d.window| == PressCount - 1 && !Stale(d.window[0], now) {
      assert d.window[0] <= d.window[1];
      assert forall t :: t in d.window ==> t == d.window[0] || t == d.window[1];
    }
  }

  /**
   Duplicate suppression: a second press less than the debounce interval after
   an accepted one (or earlier than it) is absorbed without any effect.
   */
  lemma DuplicateAbsorbed(d: Detector, t: int, t': int)
    requires Accepts(d, t)
    requires t' - t < DebounceMs
    ensures Step(Step(d, t).next, t') == StepResult(Step(d, t).next, false)
  {
  }

  /**
   Disabling keeps the last accepted press time, so a press inside the
   debounce interval of it is still ignored after a disable and re-enable.
   */
  lemma DebounceSurvivesDisable(d: Detector, now: int)
    requires now - d.last < DebounceMs
    ensures Step(Disable(d), now) == StepResult(Disable(d), false)
  {
  }
}
