/**
 Sequences of volume-down presses fed one after another to the detector:
 the invariant over whole runs, how often the trigger can fire, the
 "three presses" gesture, and concrete press sequences.
 */
module VolumeSosRuns {
  import opened VolumeSos
  import opened VolumeSosInvariant

  /** The final state of a run and the trigger output of each press in order. */
  datatype Trace = Trace(final: Detector, fired: seq<bool>)

  /** Feeds the presses `ps` to the detector one at a time, in order. */
  function Run(d: Detector, ps: seq<int>): (r: Trace)
    ensures |r.fired| == |ps|
    decreases |ps|
  {
    if |ps| == 0 then Trace(d, [])
    else
      var s := Step(d, ps[0]);
      var rest := Run(s.next, ps[1..]);
      Trace(rest.final, [s.fired] + rest.fired)
  }

  /** How many presses of the run pass the debounce check. */
  function AcceptedCount(d: Detector, ps: seq<int>): (n: nat)
    ensures n <= |ps|
    decreases |ps|
  {
    if |ps| == 0 then 0
    else (if Accepts(d, ps[0]) then 1 else 0) + AcceptedCount(Step(d, ps[0]).next, ps[1..])
  }

  /** How many times the trigger fired. */
  function CountFired(fired: seq<bool>): (n: nat)
    ensures n <= |fired|
    ensures n == 0 <==> forall i :: 0 <= i < |fired| ==> !fired[i]
    decreases |fired|
  {
    if |fired| == 0 then 0
    else (if fired[0] then 1 else 0) + CountFired(fired[1..])
  }

  /** A run from a valid state ends in a valid state. */
  lemma {:induction false} RunPreservesValid(d: Detector, ps: seq<int>)
    requires Valid(d)
    ensures Valid(Run(d, ps).final)
    decreases |ps|
  {
    if |ps| > 0 {
      StepPreservesValid(d, ps[0]);
      RunPreservesValid(Step(d, ps[0]).next, ps[1..]);
    }
  }

  /**
   Every firing consumes a full set of accepted presses: three times the
   number of firings, plus what is left in the window, never exceeds what
   was stored at the start plus the accepted presses of the run.
   */
  lemma {:induction false} FireCountBound(d: Detector, ps: seq<int>)
    ensures PressCount * CountFired(Run(d, ps).fired) + |Run(d, ps).final.window|
            <= |d.window| + AcceptedCount(d, ps)
    decreases |ps|
  {
    if |ps| > 0 {
      var s := Step(d, ps[0]);
      FireCountBound(s.next, ps[1..]);
      assert Run(d, ps).fired[1..] == Run(s.next, ps[1..]).fired;
      if s.fired {
        assert |Prune(d.window, ps[0])| <= |d.window|;
      }
    }
  }

  /**
   After the trigger fires, no run with at most two accepted presses can fire
   it again: a fresh set of three accepted presses is needed.
   */
  lemma NoRefireWithinTwoPresses(d: Detector, now: int, ps: seq<int>)
    requires Step(d, now).fired
    requires AcceptedCount(Step(d, now).next, ps) < PressCount
    ensures forall i :: 0 <= i < |ps| ==> !Run(Step(d, now).next, ps).fired[i]
  {
    FireCountBound(Step(d, now).next, ps);
  }

  /** The outputs of the first `k` presses do not depend on the presses after them. */
  lemma {:induction false} RunPrefix(d: Detector, ps: seq<int>, k: nat)
    requires k <= |ps|
    ensures Run(d, ps[..k]).fired == Run(d, ps).fired[..k]
    ensures AcceptedCount(d, ps[..k]) <= AcceptedCount(d, ps)
    decreases |ps|
  {
    if k > 0 {
      var s := Step(d, ps[0]);
      assert ps[..k][0] == ps[0];
      assert ps[..k][1..] == ps[1..][..k - 1];
      RunPrefix(s.next, ps[1..], k - 1);
    }
  }

  /**
   After the trigger fires, a press of any continuation cannot fire while it
   and the presses before it hold at most two accepted presses: only the third
   accepted press after a firing can fire again.
   */
  lemma NoRefireBeforeThirdAccepted(d: Detector, now: int, ps: seq<int>, k: nat)
    requires Step(d, now).fired
    requires k <= |ps|
    requires AcceptedCount(Step(d, now).next, ps[..k]) < PressCount
    ensures forall i :: 0 <= i < k ==> !Run(Step(d, now).next, ps).fired[i]
  {
    var e := Step(d, now).next;
    NoRefireWithinTwoPresses(d, now, ps[..k]);
    RunPrefix(e, ps, k);
    assert forall i :: 0 <= i < k ==> Run(e, ps).fired[i] == Run(e, ps[..k]).fired[i];
  }

  /** Running a press followed by more presses is one step followed by the rest. */
  lemma RunCons(d: Detector, t: int, ps: seq<int>)
    ensures Run(d, [t] + ps).fired == [Step(d, t).fired] + Run(Step(d, t).next, ps).fired
    ensures Run(d, [t] + ps).final == Run(Step(d, t).next, ps).final
  {
    assert ([t] + ps)[0] == t;
    assert ([t] + ps)[1..] == ps;
  }

  /**
   The second press of the gesture, from a one-entry window: it never fires,
   and it keeps the first press unless that has already gone stale.
   */
  lemma SecondPress(t1: int, t2: int)
    requires t2 - t1 >= DebounceMs
    ensures Step(Detector(t1, [t1]), t2) ==
              if Stale(t1, t2) then StepResult(Detector(t2, [t2]), false)
              else StepResult(Detector(t2, [t1, t2]), false)
  {
    PruneSingleton(t1, t2);
    assert [t1] + [t2] == [t1, t2];
  }

  /** The third press of the gesture fires exactly when the first is still fresh. */
  lemma ThirdPress(t1: int, t2: int, t3: int)
    requires t2 - t1 >= DebounceMs && t3 - t2 >= DebounceMs
    ensures Step(Detector(t2, [t1, t2]), t3).fired <==> t3 - t1 <= WindowMs
    ensures Step(Detector(t2, [t1, t2]), t3).next.last == t3
  {
    assert [t1, t2] == [t1] + [t2];
    PruneDistributes([t1], [t2], t3);
    PruneSingleton(t1, t3);
    PruneSingleton(t2, t3);
  }

  /** A run of three presses is three steps, each from the state the previous one left. */
  lemma RunThree(d: Detector, t1: int, t2: int, t3: int)
    ensures var d1 := Step(d, t1).next;
            var d2 := Step(d1, t2).next;
            && Run(d, [t1, t2, t3]).fired == [Step(d, t1).fired, Step(d1, t2).fired, Step(d2, t3).fired]
            && Run(d, [t1, t2, t3]).final == Step(d2, t3).next
  {
    var d1 := Step(d, t1).next;
    var d2 := Step(d1, t2).next;
    assert [t1, t2, t3] == [t1] + ([t2] + [t3]);
    RunCons(d, t1, [t2] + [t3]);
    RunCons(d1, t2, [t3]);
    RunCons(d2, t3, []);
  }

  /**
   The gesture itself: from a state with an empty window, three presses each
   passing the debounce check fire on the third press when the three span at
   most the detection window, and never fire when they span more.
   */
  lemma ThreePresses(d: Detector, t1: int, t2: int, t3: int)
    requires d.window == []
    requires Accepts(d, t1) && t2 - t1 >= DebounceMs && t3 - t2 >= DebounceMs
    ensures t3 - t1 <= WindowMs ==> Run(d, [t1, t2, t3]).fired == [false, false, true]
    ensures t3 - t1 > WindowMs ==> Run(d, [t1, t2, t3]).fired == [false, false, false]
    ensures Run(d, [t1, t2, t3]).final.last == t3
  {
    var d1 := Step(d, t1).next;
    assert Step(d, t1) == StepResult(Detector(t1, [t1]), false);
    SecondPress(t1, t2);
    var d2 := Step(d1, t2).next;
    var s3 := Step(d2, t3);
    if Stale(t1, t2) {
      assert d2 == Detector(t2, [t2]);
      assert !s3.fired by {
        assert |Prune(d2.window, t3)| <= 1;
      }
    } else {
      ThirdPress(t1, t2, t3);
    }
    RunThree(d, t1, t2, t3);
  }

  /**
   Three presses within the window fire the trigger exactly once from any
   state the detector can be in, even when earlier presses are still stored:
   the press that fires may then be the first or second of the three rather
   than the third.
   */
  lemma ThreeWithinWindowFiresOnce(d: Detector, t1: int, t2: int, t3: int)
    requires Valid(d)
    requires Accepts(d, t1) && t2 - t1 >= DebounceMs && t3 - t2 >= DebounceMs
    requires t3 - t1 <= WindowMs
    ensures CountFired(Run(d, [t1, t2, t3]).fired) == 1
  {
    var d1 := Step(d, t1).next;
    var d2 := Step(d1, t2).next;
    RunThree(d, t1, t2, t3);
    ThreeWithinWindowFires(d, t1, t2, t3);
    CountFiredThree(Step(d, t1).fired, Step(d1, t2).fired, Step(d2, t3).fired);
    FireCountBound(d, [t1, t2, t3]);
  }

  /** One of three accepted presses within the window fires, from any valid state. */
  lemma ThreeWithinWindowFires(d: Detector, t1: int, t2: int, t3: int)
    requires Valid(d)
    requires Accepts(d, t1) && t2 - t1 >= DebounceMs && t3 - t2 >= DebounceMs
    requires t3 - t1 <= WindowMs
    ensures var d1 := Step(d, t1).next;
            Step(d, t1).fired || Step(d1, t2).fired || Step(Step(d1, t2).next, t3).fired
  {
    var s1 := Step(d, t1);
    var s2 := Step(s1.next, t2);
    if !s1.fired && !s2.fired {
      StepPreservesValid(d, t1);
      StepPreservesValid(s1.next, t2);
      assert t1 in s1.next.window;
      assert t1 in s2.next.window;
      assert s2.next.window == Prune(s1.next.window, t2) + [t2];
      FiringCondition(s2.next, t3);
      assert forall t :: t in s2.next.window ==> t == t1 || t == t2;
    }
  }

  /** A three-press output list is counted press by press. */
  lemma CountFiredThree(a: bool, b: bool, c: bool)
    ensures CountFired([a, b, c]) == (if a then 1 else 0) + (if b then 1 else 0) + (if c then 1 else 0)
  {
    assert [a, b, c][1..] == [b, c];
    assert [b, c][1..] == [c];
    assert [c][1..] == [];
    assert CountFired([c]) == (if c then 1 else 0);
    assert CountFired([b, c]) == (if b then 1 else 0) + CountFired([c]);
    assert CountFired([a, b, c]) == (if a then 1 else 0) + CountFired([b, c]);
  }

  /**
   With an ordinary press already stored, the gesture fires early: presses at
   1000, 1500, 1800 and 2100 fire on the third press, so the last three of
   them do not fire on their own third press.
   */
  lemma ScenarioStoredPressFiresEarly()
    ensures Run(Initial(), [1000, 1500, 1800, 2100]).fired == [false, false, true, false]
  {
    assert [1000, 1500, 1800, 2100][1..] == [1500, 1800, 2100];
    assert [1500, 1800, 2100][1..] == [1800, 2100];
    assert [1800, 2100][1..] == [2100];
  }

  /** Presses at 1000, 1700 and 2500 after start-up fire on the third press. */
  lemma ScenarioThreeQuickPresses()
    ensures Run(Initial(), [1000, 1700, 2500]).fired == [false, false, true]
  {
    ThreePresses(Initial(), 1000, 1700, 2500);
  }

  /**
   Presses at 1000, 1100, 1700 and 2900: the press at 1100 is debounced and
   the fourth press fires, since 1000 is only 1900 ms old.
   */
  lemma ScenarioDebouncedDuplicate()
    ensures Run(Initial(), [1000, 1100, 1700, 2900]).fired == [false, false, false, true]
  {
    var d1 := Step(Initial(), 1000).next;
    assert d1 == Detector(1000, [1000]);
    assert Step(d1, 1100) == StepResult(d1, false);
    ThreePresses(Initial(), 1000, 1700, 2900);
    assert [1000, 1100, 1700, 2900][1..] == [1100, 1700, 2900];
    assert [1100, 1700, 2900][1..] == [1700, 2900];
    assert [1000, 1700, 2900][1..] == [1700, 2900];
  }

  /**
   The window edge: an entry exactly 2000 ms old is kept, so 1000, 1700 and
   3000 fire on the third press, while 1000, 1700 and 3001 never fire.
   */
  lemma ScenarioWindowEdge()
    ensures Run(Initial(), [1000, 1700, 3000]).fired == [false, false, true]
    ensures Run(Initial(), [1000, 1700, 3001]).fired == [false, false, false]
  {
    ThreePresses(Initial(), 1000, 1700, 3000);
    ThreePresses(Initial(), 1000, 1700, 3001);
  }

  /** Presses at 1000, 2000 and 3001 never fire: 1000 is pruned at 3001. */
  lemma ScenarioSpanTooLong()
    ensures Run(Initial(), [1000, 2000, 3001]).fired == [false, false, false]
  {
    ThreePresses(Initial(), 1000, 2000, 3001);
  }

  /** A press at time 100 is debounced against the initial last press time 0. */
  lemma ScenarioEarlyPressDebounced()
    ensures Step(Initial(), 100) == StepResult(Initial(), false)
  {
  }

  /**
   Because the initial last press time is 0, a run starting at time 0 loses
   its first press to the debounce check: 0, 700, 1500 fire nothing, and so
   do 0, 100, 700, 1900.
   */
  lemma ScenarioStartingAtZero()
    ensures Run(Initial(), [0, 700, 1500]).fired == [false, false, false]
    ensures Run(Initial(), [0, 100, 700, 1900]).fired == [false, false, false, false]
  {
    assert [0, 700, 1500][1..] == [700, 1500];
    assert [700, 1500][1..] == [1500];
    assert [0, 100, 700, 1900][1..] == [100, 700, 1900];
    assert [100, 700, 1900][1..] == [700, 1900];
    assert [700, 1900][1..] == [1900];
  }

  /**
   A disable between presses empties the window but keeps the last press
   time: after presses at 1000 and 1700 and a disable, a press at 1800 is
   still debounced and a press at 2100 starts a new gesture instead of firing.
   */
  lemma ScenarioDisableBetweenPresses()
    ensures Step(Disable(Run(Initial(), [1000, 1700]).final), 1800).fired == false
    ensures Step(Disable(Run(Initial(), [1000, 1700]).final), 1800).next.last == 1700
    ensures Step(Disable(Run(Initial(), [1000, 1700]).final), 2100) == StepResult(Detector(2100, [2100]), false)
  {
    assert [1000, 1700][1..] == [1700];
    assert Run(Initial(), [1000, 1700]).final == Detector(1700, [1000, 1700]);
  }
}
