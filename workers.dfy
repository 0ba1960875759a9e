/**
 The two kinds of worker thread (LongWorker and TransientWorker), seen one
 worker at a time: the shared counters g_totalWorkers and g_crashCount are the
 fields of one Counters object, each loop iteration either completes DoReads
 or ends in one of the two catch blocks, and the lifetime of a worker is the
 finite list of iterations it gets to run.
 */
module Workers {
  import opened Random
  import opened Pages
  import opened Safepoints
  import opened Trace
  import opened Schedule
  import opened Workload

  /** g_totalWorkers and g_crashCount. */
  class Counters {
    var totalWorkers: int
    var crashCount: int

    constructor ()
      ensures totalWorkers == 0 && crashCount == 0
    {
      totalWorkers := 0;
      crashCount := 0;
    }
  }

  /**
   One pass of a worker loop: what the outside world decides for DoReads,
   whether DoReads returned (Ok), threw a std::exception or threw anything
   else, and, when it threw, how many of its events had happened by then.
   */
  datatype Iteration = Iteration(env: ScatterEnv, outcome: Outcome, reached: nat)

  /**
   What a worker records of one DoReads call whose events, run to the end,
   are `calls`: all of them when it returned; when it threw, the events before
   the throw (never the last one, since nothing can throw after CloseHandle
   or after a failed VMMDLL_Scatter_Initialize), then the catch block.
   */
  function Recorded(calls: seq<Event>, it: Iteration): (r: seq<Event>)
    requires |calls| > 0
    ensures it.outcome == Ok ==> r == calls
    ensures it.outcome != Ok ==>
              && 0 < |r| <= |calls| && r[|r| - 1] == Caught(it.outcome)
              && r[..|r| - 1] == calls[..|r| - 1]
  {
    if it.outcome == Ok then calls
    else calls[..Min(it.reached, |calls| - 1)] + [Caught(it.outcome)]
  }

  /** How many of the iterations ended with `o`. */
  function Ended(iterations: seq<Iteration>, o: Outcome): (n: nat)
    ensures n <= |iterations|
  {
    if iterations == [] then 0
    else Ended(iterations[..|iterations| - 1], o) + (if iterations[|iterations| - 1].outcome == o then 1 else 0)
  }

  /** Every iteration ends in exactly one of the three ways. */
  lemma {:induction false} EndedPartition(iterations: seq<Iteration>)
    ensures Ended(iterations, Ok) + Ended(iterations, StdException) + Ended(iterations, Unknown) == |iterations|
  {
    if iterations != [] {
      EndedPartition(iterations[..|iterations| - 1]);
    }
  }

  /** The kinds of event whose number a worker loop fixes outright. */
  predicate Tallied(k: Kind)
  {
    k in {CaughtKind, CrashKind, EnlistKind, RetireKind, RespawnKind}
  }

  /** The event counts a worker loop is held to, kind by kind. */
  function Expected(iterations: seq<Iteration>, k: Kind): nat
  {
    match k
    case CaughtKind => Ended(iterations, StdException) + Ended(iterations, Unknown)
    case CrashKind => Ended(iterations, Unknown)
    case _ => 0
  }

  /** The counts one iteration adds, given what it appended. */
  lemma ExpectedSnoc(iterations: seq<Iteration>, it: Iteration, k: Kind)
    ensures Expected(iterations + [it], k)
            == Expected(iterations, k) + Expected([it], k)
  {
    assert (iterations + [it])[..|iterations|] == iterations;
    assert [it][..0] == [];
  }

  /**
   The body of a worker loop (lines 240-253 and 283-297): DoReads inside a
   try block; a std::exception is reported and the loop goes on, any other
   exception is reported, counted in g_crashCount, and the loop goes on.
   `calls` are the events DoReads issues when it runs to its end; the worker
   records them, cut short by a throw as Recorded says.
   */
  method Guarded(vmm: VmmSession, counters: Counters, g: Prng, it: Iteration)
    returns (events: seq<Event>, g': Prng, calls: seq<Event>,
             noCache: bool, sample: seq<PageEntry>, cbWants: seq<nat>, pauses: Pauses)
    requires |vmm.pages| > 0
    modifies counters
    ensures counters.totalWorkers == old(counters.totalWorkers)
    ensures counters.crashCount == old(counters.crashCount) + (if it.outcome == Unknown then 1 else 0)
    ensures it.env.opens ==> Fits(sample, cbWants, pauses)
    ensures calls == IterationTrace(FlagsFromBool(noCache), it.env.opens, sample, cbWants, pauses)
    ensures events == Recorded(calls, it)
    ensures forall k :: Tallied(k) ==> Count(events, k) == Expected([it], k)
    ensures (if it.outcome == Ok then 1 else 0) <= Count(events, InitializeKind) <= 1
    ensures Count(events, CloseKind) <= Count(events, OpenedKind)
            <= Count(events, CloseKind) + (if it.outcome == Ok then 0 else 1)
    ensures g'.stream == g.stream
  {
    calls, g', noCache, sample, cbWants, pauses := DoReads(vmm, g, it.env);
    events := Recorded(calls, it);
    IterationFacts(FlagsFromBool(noCache), it.env.opens, sample, cbWants, pauses);
    if it.outcome == Ok {
      CompletedCounts(calls, it);
    } else {
      FaultCounts(calls, it);
      FaultTallies(calls, it);
      if it.outcome == Unknown {
        counters.crashCount := counters.crashCount + 1;
      }
    }
  }

  /**
   What a worker counts in the events of one DoReads call: one Initialize, at
   most one handle opened, as many CloseHandle calls as handles opened, none
   of them before the last event, and nothing a worker loop tallies.
   */
  lemma IterationFacts(flags: nat, opens: bool, sample: seq<PageEntry>, cbWants: seq<nat>, p: Pauses)
    requires opens ==> Fits(sample, cbWants, p)
    ensures var t := IterationTrace(flags, opens, sample, cbWants, p);
            && |t| > 0
            && Count(t, InitializeKind) == 1
            && Count(t, OpenedKind) == Count(t, CloseKind) <= 1
            && Count(t[..|t| - 1], CloseKind) == 0
            && (forall k :: Tallied(k) ==> Count(t, k) == 0)
  {
    var t := IterationTrace(flags, opens, sample, cbWants, p);
    IterationCount(flags, opens, sample, cbWants, p, InitializeKind);
    IterationCount(flags, opens, sample, cbWants, p, OpenedKind);
    IterationCount(flags, opens, sample, cbWants, p, CloseKind);
    forall k | Tallied(k)
      ensures Count(t, k) == 0
    {
      IterationCount(flags, opens, sample, cbWants, p, k);
    }
    assert t == t[..|t| - 1] + [t[|t| - 1]];
    CountSnoc(t[..|t| - 1], t[|t| - 1], CloseKind);
    if opens {
      IterationPlaces(flags, sample, cbWants, p);
    }
  }

  /** The counts of an iteration whose DoReads returned: its whole trace, no caught fault. */
  lemma CompletedCounts(calls: seq<Event>, it: Iteration)
    requires it.outcome == Ok
    requires |calls| > 0
    requires Count(calls, InitializeKind) == 1
    requires Count(calls, OpenedKind) == Count(calls, CloseKind)
    requires forall k :: Tallied(k) ==> Count(calls, k) == 0
    ensures forall k :: Tallied(k) ==> Count(Recorded(calls, it), k) == Expected([it], k)
    ensures Count(Recorded(calls, it), InitializeKind) == 1
    ensures Count(Recorded(calls, it), OpenedKind) == Count(Recorded(calls, it), CloseKind)
  {
    assert [it][..0] == [];
  }

  /**
   The counts of an iteration that threw: the events before the throw hold
   at most the one Initialize and the one opened handle and no CloseHandle,
   and the catch block adds one caught fault, a crash exactly when it was not
   a std::exception.
   */
  lemma FaultCounts(calls: seq<Event>, it: Iteration)
    requires it.outcome != Ok
    requires |calls| > 0
    requires Count(calls, InitializeKind) == 1
    requires Count(calls, OpenedKind) <= 1
    requires Count(calls[..|calls| - 1], CloseKind) == 0
    ensures Count(Recorded(calls, it), InitializeKind) <= 1
    ensures Count(Recorded(calls, it), CloseKind) == 0
    ensures Count(Recorded(calls, it), OpenedKind) <= 1
  {
    var c := Min(it.reached, |calls| - 1);
    var before := calls[..c];
    assert Recorded(calls, it) == before + [Caught(it.outcome)];
    assert calls[..|calls| - 1][..c] == before;
    CountPrefix(calls[..|calls| - 1], c, CloseKind);
    CountPrefix(calls, c, InitializeKind);
    CountPrefix(calls, c, OpenedKind);
    CountSnoc(before, Caught(it.outcome), InitializeKind);
    CountSnoc(before, Caught(it.outcome), OpenedKind);
    CountSnoc(before, Caught(it.outcome), CloseKind);
  }

  /** The one caught fault of an iteration that threw, a crash exactly when it was not a std::exception. */
  lemma FaultTallies(calls: seq<Event>, it: Iteration)
    requires it.outcome != Ok
    requires |calls| > 0
    requires forall k :: Tallied(k) ==> Count(calls, k) == 0
    ensures forall k :: Tallied(k) ==> Count(Recorded(calls, it), k) == Expected([it], k)
  {
    forall k | Tallied(k)
      ensures Count(Recorded(calls, it), k) == Expected([it], k)
    {
      FaultTally(calls, it, k);
    }
  }

  /** The one caught fault of an iteration that threw, kind by kind. */
  lemma FaultTally(calls: seq<Event>, it: Iteration, k: Kind)
    requires it.outcome != Ok && Tallied(k)
    requires |calls| > 0 && Count(calls, k) == 0
    ensures Count(Recorded(calls, it), k) == Expected([it], k)
  {
    var c := Min(it.reached, |calls| - 1);
    CountPrefix(calls, c, k);
    CountSnoc(calls[..c], Caught(it.outcome), k);
    assert [it][..0] == [];
  }

  /** A prefix of a trace holds no more events of a kind than the trace. */
  lemma CountPrefix(t: seq<Event>, c: nat, k: Kind)
    requires c <= |t|
    ensures Count(t[..c], k) <= Count(t, k)
  {
    assert t == t[..c] + t[c..];
    CountAppend(t[..c], t[c..], k);
  }

  /**
   The loop shared by both workers, over the iterations the worker gets to
   run: no iteration ends it, each adds what it recorded, and g_crashCount
   grows by the number of non-std::exception faults. Every returning
   iteration issued one Initialize and closed what it opened; each faulting
   one issued at most one Initialize and may have left one handle open.
   */
  method WorkLoop(vmm: VmmSession, counters: Counters, g: Prng, iterations: seq<Iteration>)
    returns (events: seq<Event>, g': Prng)
    requires |vmm.pages| > 0
    modifies counters
    ensures counters.totalWorkers == old(counters.totalWorkers)
    ensures counters.crashCount == old(counters.crashCount) + Ended(iterations, Unknown)
    ensures forall k :: Tallied(k) ==> Count(events, k) == Expected(iterations, k)
    ensures Ended(iterations, Ok) <= Count(events, InitializeKind) <= |iterations|
    ensures Count(events, CloseKind) <= Count(events, OpenedKind)
            <= Count(events, CloseKind) + (|iterations| - Ended(iterations, Ok))
    ensures g'.stream == g.stream
  {
    events, g' := [], g;
    for i := 0 to |iterations|
      invariant counters.totalWorkers == old(counters.totalWorkers)
      invariant counters.crashCount == old(counters.crashCount) + Ended(iterations[..i], Unknown)
      invariant LoopCounts(events, iterations[..i])
      invariant g'.stream == g.stream
    {
      var more, calls, noCache, sample, cbWants, pauses;
      more, g', calls, noCache, sample, cbWants, pauses := Guarded(vmm, counters, g', iterations[i]);
      assert iterations[..i + 1] == iterations[..i] + [iterations[i]];
      LoopStep(events, more, iterations[..i], iterations[i]);
      events := events + more;
    }
    assert iterations[..|iterations|] == iterations;
  }

  /** What the events of a worker loop say about the iterations that produced them. */
  predicate LoopCounts(events: seq<Event>, done: seq<Iteration>)
  {
    && (forall k :: Tallied(k) ==> Count(events, k) == Expected(done, k))
    && Ended(done, Ok) <= Count(events, InitializeKind) <= |done|
    && Count(events, CloseKind) <= Count(events, OpenedKind)
       <= Count(events, CloseKind) + (|done| - Ended(done, Ok))
  }

  /** One more iteration of a worker loop keeps its counts. */
  lemma LoopStep(events: seq<Event>, more: seq<Event>, done: seq<Iteration>, it: Iteration)
    requires LoopCounts(events, done)
    requires forall k :: Tallied(k) ==> Count(more, k) == Expected([it], k)
    requires (if it.outcome == Ok then 1 else 0) <= Count(more, InitializeKind) <= 1
    requires Count(more, CloseKind) <= Count(more, OpenedKind)
             <= Count(more, CloseKind) + (if it.outcome == Ok then 0 else 1)
    ensures LoopCounts(events + more, done + [it])
    ensures Ended(done + [it], Unknown) == Ended(done, Unknown) + (if it.outcome == Unknown then 1 else 0)
  {
    forall k ensures Count(events + more, k) == Count(events, k) + Count(more, k) {
      CountAppend(events, more, k);
    }
    forall k ensures Expected(done + [it], k) == Expected(done, k) + Expected([it], k) {
      ExpectedSnoc(done, it, k);
    }
    EndedSnoc(done, it, Unknown);
    EndedSnoc(done, it, Ok);
  }

  lemma EndedSnoc(iterations: seq<Iteration>, it: Iteration, o: Outcome)
    ensures Ended(iterations + [it], o) == Ended(iterations, o) + (if it.outcome == o then 1 else 0)
  {
    assert (iterations + [it])[..|iterations|] == iterations;
  }

  /**
   A throw after VMMDLL_Scatter_Initialize gave a handle leaves that handle
   open: std::vector's allocation of the byte counts (line 187) or of a read
   buffer (line 215) throws with two or more events behind it, the catch
   block swallows the exception, and CloseHandle (line 231) is never called.
   */
  lemma FaultAfterOpenLeaks(flags: nat, sample: seq<PageEntry>, cbWants: seq<nat>, p: Pauses, it: Iteration)
    requires Fits(sample, cbWants, p)
    requires it.outcome != Ok && it.reached >= 2
    ensures var t := IterationTrace(flags, true, sample, cbWants, p);
            Count(Recorded(t, it), OpenedKind) == 1 && Count(Recorded(t, it), CloseKind) == 0
  {
    var t := IterationTrace(flags, true, sample, cbWants, p);
    IterationPlaces(flags, sample, cbWants, p);
    IterationFacts(flags, true, sample, cbWants, p);
    FaultCounts(t, it);
    var c := Min(it.reached, |t| - 1);
    assert Recorded(t, it) == t[..c] + [Caught(it.outcome)];
    assert t[..c] == [t[0]] + [t[1]] + t[2..c];
    CountSingle(t[0], OpenedKind);
    CountAppend([t[0]], [t[1]], OpenedKind);
    CountSingle(t[1], OpenedKind);
    CountAppend([t[0]] + [t[1]], t[2..c], OpenedKind);
    CountSnoc(t[..c], Caught(it.outcome), OpenedKind);
  }

  /**
   What a worker records when a throw does not leak the handle: a CloseHandle
   before the catch block whenever the events before the throw opened a
   handle they did not close, as a scope guard around the handle would do.
   */
  function Unwound(calls: seq<Event>, it: Iteration): seq<Event>
    requires |calls| > 0
  {
    if it.outcome == Ok then calls
    else
      var before := calls[..Min(it.reached, |calls| - 1)];
      before + (if Count(before, OpenedKind) > Count(before, CloseKind) then [Close] else []) + [Caught(it.outcome)]
  }

  /**
   With the handle closed on the way out, every handle an iteration opens is
   closed whether DoReads returns or throws, and every other count is what
   the code as written records.
   */
  lemma UnwoundBalanced(flags: nat, opens: bool, sample: seq<PageEntry>, cbWants: seq<nat>, p: Pauses, it: Iteration)
    requires opens ==> Fits(sample, cbWants, p)
    ensures var t := IterationTrace(flags, opens, sample, cbWants, p);
            && Count(Unwound(t, it), OpenedKind) == Count(Unwound(t, it), CloseKind) <= 1
            && forall k :: k != CloseKind ==> Count(Unwound(t, it), k) == Count(Recorded(t, it), k)
  {
    var t := IterationTrace(flags, opens, sample, cbWants, p);
    IterationFacts(flags, opens, sample, cbWants, p);
    if it.outcome != Ok {
      var c := Min(it.reached, |t| - 1);
      var before := t[..c];
      assert t[..|t| - 1][..c] == before;
      CountPrefix(t[..|t| - 1], c, CloseKind);
      CountPrefix(t, c, OpenedKind);
      UnwindBefore(before, it.outcome);
    }
  }

  /** Closing what the events before a throw left open balances them and changes no other count. */
  lemma UnwindBefore(before: seq<Event>, o: Outcome)
    requires Count(before, CloseKind) == 0 && Count(before, OpenedKind) <= 1
    ensures var fix := if Count(before, OpenedKind) > Count(before, CloseKind) then [Close] else [];
            var u := before + fix + [Caught(o)];
            && Count(u, OpenedKind) == Count(u, CloseKind) <= 1
            && forall k :: k != CloseKind ==> Count(u, k) == Count(before + [Caught(o)], k)
  {
    var fix := if Count(before, OpenedKind) > Count(before, CloseKind) then [Close] else [];
    forall k
      ensures Count(before + fix + [Caught(o)], k) == Count(before, k) + Count(fix, k) + Count([Caught(o)], k)
      ensures Count(before + [Caught(o)], k) == Count(before, k) + Count([Caught(o)], k)
    {
      CountAppend(before + fix, [Caught(o)], k);
      CountAppend(before, fix, k);
      CountAppend(before, [Caught(o)], k);
    }
    forall k ensures Count(fix, k) == (if fix != [] && k == CloseKind then 1 else 0) {
      CountSingle(Close, k);
    }
    CountSingle(Caught(o), OpenedKind);
    CountSingle(Caught(o), CloseKind);
  }

  /**
   LongWorker (lines 235-254): enlist once in g_totalWorkers, then run the
   loop for as long as the worker lives; it never retires and never respawns.
   */
  method LongWorker(vmm: VmmSession, counters: Counters, g: Prng, iterations: seq<Iteration>)
    returns (events: seq<Event>, g': Prng)
    requires |vmm.pages| > 0
    modifies counters
    ensures counters.totalWorkers == old(counters.totalWorkers) + 1
    ensures counters.crashCount == old(counters.crashCount) + Ended(iterations, Unknown)
    ensures |events| > 0 && events[0] == Enlist
    ensures Count(events, EnlistKind) == 1
    ensures Count(events, RetireKind) == 0 && Count(events, RespawnKind) == 0
    ensures Ended(iterations, Ok) <= Count(events, InitializeKind) <= |iterations|
    ensures Count(events, CaughtKind) == |iterations| - Ended(iterations, Ok)
    ensures Count(events, CrashKind) == Ended(iterations, Unknown)
    ensures Count(events, CloseKind) <= Count(events, OpenedKind)
            <= Count(events, CloseKind) + (|iterations| - Ended(iterations, Ok))
    ensures g'.stream == g.stream
  {
    counters.totalWorkers := counters.totalWorkers + 1;
    var body;
    body, g' := WorkLoop(vmm, counters, g, iterations);
    events := [Enlist] + body;
    FramedCounts(body, [], iterations);
    assert events == [Enlist] + body + [];
  }

  /**
   TransientWorker (lines 264-302): enlist, run the loop until the lifetime
   is over, then retire from g_totalWorkers and, as the very last step,
   spawn the replacement worker.
   */
  method TransientWorker(vmm: VmmSession, counters: Counters, g: Prng, iterations: seq<Iteration>)
    returns (events: seq<Event>, g': Prng)
    requires |vmm.pages| > 0
    modifies counters
    ensures counters.totalWorkers == old(counters.totalWorkers)
    ensures counters.crashCount == old(counters.crashCount) + Ended(iterations, Unknown)
    ensures |events| >= 3 && events[0] == Enlist
    ensures events[|events| - 2..] == [Retire, Respawn]
    ensures Count(events, EnlistKind) == 1 && Count(events, RetireKind) == 1
    ensures Count(events, RespawnKind) == 1
    ensures Ended(iterations, Ok) <= Count(events, InitializeKind) <= |iterations|
    ensures Count(events, CaughtKind) == |iterations| - Ended(iterations, Ok)
    ensures Count(events, CrashKind) == Ended(iterations, Unknown)
    ensures Count(events, CloseKind) <= Count(events, OpenedKind)
            <= Count(events, CloseKind) + (|iterations| - Ended(iterations, Ok))
    ensures g'.stream == g.stream
  {
    counters.totalWorkers := counters.totalWorkers + 1;
    var body;
    body, g' := WorkLoop(vmm, counters, g, iterations);
    counters.totalWorkers := counters.totalWorkers - 1;
    events := [Enlist] + body + [Retire, Respawn];
    FramedCounts(body, [Retire, Respawn], iterations);
  }

  /**
   The counts of a worker's events: the loop's own counts, plus the Enlist
   before it and whatever `tail` of Retire and Respawn follows it.
   */
  lemma FramedCounts(body: seq<Event>, tail: seq<Event>, iterations: seq<Iteration>)
    requires tail == [] || tail == [Retire, Respawn]
    requires forall k :: Tallied(k) ==> Count(body, k) == Expected(iterations, k)
    ensures var events := [Enlist] + body + tail;
            && Count(events, EnlistKind) == 1
            && Count(events, RetireKind) == Count(events, RespawnKind) == (if tail == [] then 0 else 1)
            && Count(events, CaughtKind) == |iterations| - Ended(iterations, Ok)
            && Count(events, CrashKind) == Ended(iterations, Unknown)
            && Count(events, InitializeKind) == Count(body, InitializeKind)
            && Count(events, OpenedKind) == Count(body, OpenedKind)
            && Count(events, CloseKind) == Count(body, CloseKind)
  {
    EndedPartition(iterations);
    FramedCount(body, tail, EnlistKind);
    FramedCount(body, tail, RetireKind);
    FramedCount(body, tail, RespawnKind);
    FramedCount(body, tail, InitializeKind);
    FramedCount(body, tail, CaughtKind);
    FramedCount(body, tail, CrashKind);
    FramedCount(body, tail, OpenedKind);
    FramedCount(body, tail, CloseKind);
  }

  /** The events of kind `k` a worker records: the loop's, plus Enlist and the tail. */
  lemma FramedCount(body: seq<Event>, tail: seq<Event>, k: Kind)
    requires tail == [] || tail == [Retire, Respawn]
    ensures Count([Enlist] + body + tail, k)
            == (if k == EnlistKind then 1 else 0) + Count(body, k)
               + (if tail != [] && (k == RetireKind || k == RespawnKind) then 1 else 0)
  {
    CountAppend([Enlist], body, k);
    CountAppend([Enlist] + body, tail, k);
    CountSingle(Enlist, k);
    if tail != [] {
      assert tail[..1] == [Retire];
      CountSingle(Retire, k);
    }
  }
}
