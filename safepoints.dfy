/**
 The scheduling perturbations a worker applies to itself: the scatter flags it
 picks for an iteration (FlagsFromBool) and the GC-like safepoint
 (SimulateGCSafepoint), whose sleeps and tail are recorded as actions.
 */
module Safepoints {
  import opened Random

  /** Value of VMMDLL_FLAG_NOCACHE in vmmdll.h. */
  const NoCacheFlag: nat := 0x0001

  /** FlagsFromBool: the scatter flags for a "bypass cache" choice. */
  function FlagsFromBool(noCache: bool): (flags: nat)
    ensures flags == 0 || flags == NoCacheFlag
    ensures flags == NoCacheFlag <==> noCache
  {
    if noCache then NoCacheFlag else 0
  }

  /** What a safepoint does to the calling thread. */
  datatype Action =
    | PauseSleep      // Sleep(1): the emulated stop-the-world pause
    | SwitchToThread  // SwitchToThread(): yield to another ready thread
    | YieldSleep      // Sleep(0): give up the rest of the time slice

  /**
   The decision of SimulateGCSafepoint given the pause flag it read and the
   value `r` it drew from [0, 100]: the pause is emulated exactly when the
   flag is set, and independently `r < 5` tail with SwitchToThread,
   `5 <= r < 10` with Sleep(0) and anything else does nothing more.
   */
  function SafepointActions(pause: bool, r: int): (actions: seq<Action>)
    ensures |actions| == (if pause then 1 else 0) + (if r < 10 then 1 else 0)
    ensures multiset(actions)[PauseSleep] == if pause then 1 else 0
    ensures pause ==> actions[0] == PauseSleep
    ensures SwitchToThread in actions <==> r < 5
    ensures YieldSleep in actions <==> 5 <= r < 10
    ensures !pause && r >= 10 ==> actions == []
  {
    (if pause then [PauseSleep] else [])
    + (if r < 5 then [SwitchToThread] else if r < 10 then [YieldSleep] else [])
  }

  /**
   The actions a safepoint may take for a given pause flag: the pause (when the
   flag is set) followed by at most one yield.
   */
  predicate Decided(actions: seq<Action>, pause: bool)
  {
    if pause then |actions| > 0 && actions[0] == PauseSleep && AtMostOneYield(actions[1..])
    else AtMostOneYield(actions)
  }

  predicate AtMostOneYield(tail: seq<Action>)
  {
    tail == [] || tail == [SwitchToThread] || tail == [YieldSleep]
  }

  /** Decided holds exactly for the outcomes of some draw from [0, 100]. */
  lemma DecidedIffDrawn(actions: seq<Action>, pause: bool)
    ensures Decided(actions, pause) <==> exists r :: 0 <= r <= 100 && actions == SafepointActions(pause, r)
  {
    if Decided(actions, pause) {
      DecidedIsDrawn(actions, pause);
    }
    if exists r :: 0 <= r <= 100 && actions == SafepointActions(pause, r) {
      var r :| 0 <= r <= 100 && actions == SafepointActions(pause, r);
      DrawnIsDecided(pause, r);
    }
  }

  lemma DecidedIsDrawn(actions: seq<Action>, pause: bool)
    requires Decided(actions, pause)
    ensures exists r :: 0 <= r <= 100 && actions == SafepointActions(pause, r)
  {
    var tail := if pause then actions[1..] else actions;
    var r := if tail == [SwitchToThread] then 0 else if tail == [YieldSleep] then 5 else 10;
    assert actions == (if pause then [PauseSleep] else []) + tail;
    assert actions == SafepointActions(pause, r);
  }

  lemma DrawnIsDecided(pause: bool, r: int)
    ensures Decided(SafepointActions(pause, r), pause)
  {
    var actions := SafepointActions(pause, r);
    if pause {
      assert actions[1..] == (if r < 5 then [SwitchToThread] else if r < 10 then [YieldSleep] else []);
    }
  }

  /** SimulateGCSafepoint: read the flag (given), draw r from [0, 100], act. */
  function SimulateGCSafepoint(pause: bool, g: Prng): (res: (seq<Action>, Prng))
    ensures Decided(res.0, pause)
    ensures res.1 == Advance(g, 1)
  {
    var (r, g') := Uniform(g, 0, 100);
    DecidedIffDrawn(SafepointActions(pause, r), pause);
    (SafepointActions(pause, r), g')
  }
}
