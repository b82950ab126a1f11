/**
 The "volume-down x3" SOS gesture detector of the Saheli Android activity.

 Every volume-down key event (from the foreground key handler or from the
 media-session callback) is fed, with the current wall-clock time in
 milliseconds, to a small state machine. A press closer than the debounce
 interval to the last accepted press is ignored; accepted presses are kept in
 a window list from which entries older than the detection window are pruned;
 once the window holds the required number of presses it is cleared and the
 SOS trigger fires.

 The clock is a parameter of `Step`, the trigger is its boolean output, and
 Kotlin's `Long` timestamps are modelled as unbounded integers.
 */
module VolumeSos {

  /** Number of presses inside the window that fires the trigger. */
  const PressCount: nat := 3

  /** Width of the detection window, in milliseconds. */
  const WindowMs: int := 2000

  /** Minimum distance to the last accepted press, in milliseconds. */
  const DebounceMs: int := 300

  /** The detector's state: the last accepted press time and the window list. */
  datatype Detector = Detector(last: int, window: seq<int>)

  /** What one press does: the state afterwards and whether the trigger fired. */
  datatype StepResult = StepResult(next: Detector, fired: bool)

  /** The state the activity starts in: last press at time 0, empty window. */
  function Initial(): (d: Detector)
    ensures d.window == []
    ensures d.last == 0
  {
    Detector(0, [])
  }

  /** A press at `now` passes the debounce check against the last accepted press. */
  predicate Accepts(d: Detector, now: int)
  {
    now - d.last >= DebounceMs
  }

  /** An entry recorded at `t` has fallen out of the detection window at `now`. */
  predicate Stale(t: int, now: int)
  {
    now - t > WindowMs
  }

  /** Any two entries of `w`, in list order, are at least the debounce interval apart. */
  predicate Spaced(w: seq<int>)
  {
    forall i, j :: 0 <= i < j < |w| ==> w[j] - w[i] >= DebounceMs
  }

  /** Entries never decrease along the list. */
  predicate Chronological(w: seq<int>)
  {
    forall i, j :: 0 <= i < j < |w| ==> w[i] <= w[j]
  }

  /**
   Removes every stale entry of the window, scanning the whole list the way
   `removeAll` does. The survivors are exactly the fresh entries, a spaced
   window stays spaced, and nothing is lost when nothing is stale.
   */
  function Prune(w: seq<int>, now: int): (r: seq<int>)
    ensures |r| <= |w|
    ensures forall t :: t in r <==> t in w && !Stale(t, now)
    ensures (forall t :: t in w ==> !Stale(t, now)) ==> r == w
    ensures (exists t :: t in w && Stale(t, now)) ==> |r| < |w|
    ensures Spaced(w) ==> Spaced(r)
    decreases |w|
  {
    if |w| == 0 then []
    else
      var rest := Prune(w[1..], now);
      assert w == [w[0]] + w[1..];
      if Stale(w[0], now) then rest
      else
        assert Spaced(w) ==> Spaced([w[0]] + rest) by {
          if Spaced(w) {
            forall j | 0 <= j < |rest|
              ensures rest[j] - w[0] >= DebounceMs
            {
              assert rest[j] in w[1..];
            }
          }
        }
        [w[0]] + rest
  }

  /**
   One call of the volume-down handler at time `now`: debounce, accept, prune,
   append, and fire when the window is full.
   */
  function Step(d: Detector, now: int): (r: StepResult)
    // Debounce: a press too close to the last accepted one (or earlier than
    // it) changes nothing and does not fire.
    ensures !Accepts(d, now) ==> r.next == d && !r.fired
    // An accepted press becomes the last accepted press.
    ensures Accepts(d, now) ==> r.next.last == now
    // Every entry left in the window is a fresh old entry or the press itself.
    ensures Accepts(d, now) ==>
              forall t :: t in r.next.window ==> (t in d.window || t == now) && !Stale(t, now)
    // The trigger fires exactly when the fresh old entries plus this press fill
    // the window, and firing leaves the window empty.
    ensures r.fired <==> Accepts(d, now) && |Prune(d.window, now)| + 1 >= PressCount
    ensures r.fired ==> r.next.window == []
    // A press that does not fire is remembered after the surviving entries,
    // which keep their order.
    ensures Accepts(d, now) && !r.fired ==> r.next.window == Prune(d.window, now) + [now]
    // The window grows by at most one entry.
    ensures |r.next.window| <= |d.window| + 1
  {
    if !Accepts(d, now) then StepResult(d, false)
    else
      var w := Prune(d.window, now) + [now];
      if |w| >= PressCount then StepResult(Detector(now, []), true)
      else StepResult(Detector(now, w), false)
  }

  /**
   The state effect of releasing the media session: the window list is cleared
   but the last accepted press time is kept.
   */
  function Disable(d: Detector): (r: Detector)
    ensures r.window == []
    ensures r.last == d.last
  {
    Detector(d.last, [])
  }

  /**
   Pruning keeps the survivors in their original relative order: it
   distributes over concatenation, so it is the list filter of fresh entries.
   */
  lemma {:induction false} PruneDistributes(a: seq<int>, b: seq<int>, now: int)
    ensures Prune(a + b, now) == Prune(a, now) + Prune(b, now)
    decreases |a|
  {
    if |a| == 0 {
      assert a + b == b;
    } else {
      assert (a + b)[0] == a[0];
      assert (a + b)[1..] == a[1..] + b;
      PruneDistributes(a[1..], b, now);
    }
  }

  /** A single entry survives pruning exactly when it is fresh. */
  lemma PruneSingleton(t: int, now: int)
    ensures Prune([t], now) == if Stale(t, now) then [] else [t]
  {
    assert [t][1..] == [];
  }

  /**
   On a chronological window the stale entries form a prefix, so pruning is
   the same as dropping that prefix.
   */
  lemma {:induction false} PruneChronologicalSuffix(w: seq<int>, now: int, i: nat)
    requires Chronological(w)
    requires i <= |w|
    requires forall k :: 0 <= k < i ==> Stale(w[k], now)
    requires i < |w| ==> !Stale(w[i], now)
    ensures Prune(w, now) == w[i..]
    decreases |w|
  {
    if |w| == 0 {
    } else if i == 0 {
      assert forall t :: t in w ==> !Stale(t, now);
    } else {
      assert Stale(w[0], now);
      assert w[1..][i - 1..] == w[i..];
      PruneChronologicalSuffix(w[1..], now, i - 1);
    }
  }

  /**
   Pruning by scanning only up to the first fresh entry, as a chronological
   window allows, gives the same list as the full `removeAll` scan.
   */
  method PruneByPrefix(w: seq<int>, now: int) returns (r: seq<int>)
    requires Chronological(w)
    ensures r == Prune(w, now)
    ensures forall t :: t in r ==> !Stale(t, now)
  {
    var i := 0;
    while i < |w| && Stale(w[i], now)
      invariant 0 <= i <= |w|
      invariant forall k :: 0 <= k < i ==> Stale(w[k], now)
      decreases |w| - i
    {
      i := i + 1;
    }
    PruneChronologicalSuffix(w, now, i);
    r := w[i..];
  }
}
