/**
 DoReads: one iteration of the scatter-read workload, driven against an
 abstract MemProcFS scatter API. The iteration's calls are returned as a trace;
 what the outside world decides (whether VMMDLL_Scatter_Initialize gives a
 handle, and the value of the shared pause flag at each safepoint) is an input.
 */
module Workload {
  import opened Random
  import opened Pages
  import opened Safepoints
  import opened Trace
  import opened Schedule

  /** The smallest and largest batch size drawn (countDist). */
  const MinCount: nat := 4
  const MaxCount: nat := 4096

  /** The smallest and largest byte count wanted per page (cbDist). */
  const MinWant: nat := 4
  const MaxWant: nat := 0x01E0_0000

  /**
   What the rest of the process decides during one iteration: whether
   VMMDLL_Scatter_Initialize returns a handle, and the value of
   g_simulateGCPause (written by the GC simulator thread) when the iteration
   has issued `n` calls: `pauseAt(n)`.
   */
  datatype ScatterEnv = ScatterEnv(opens: bool, pauseAt: nat -> bool)

  /** Every safepoint of the trace acted on the pause flag of its moment and a draw from [0, 100]. */
  ghost predicate SafepointsDecided(calls: seq<Event>, env: ScatterEnv)
  {
    forall i :: 0 <= i < |calls| && calls[i].Safepoint? ==> Decided(calls[i].actions, env.pauseAt(i))
  }

  /** Appending an event keeps earlier safepoints decided. */
  lemma DecidedSnoc(calls: seq<Event>, env: ScatterEnv, e: Event)
    requires SafepointsDecided(calls, env)
    requires e.Safepoint? ==> Decided(e.actions, env.pauseAt(|calls|))
    ensures SafepointsDecided(calls + [e], env)
  {
    var t := calls + [e];
    forall i | 0 <= i < |t| && t[i].Safepoint?
      ensures Decided(t[i].actions, env.pauseAt(i))
    {
      if i < |calls| {
        assert t[i] == calls[i];
      }
    }
  }

  /**
   One pass of a DoReads loop body after its call `e` (lines 197-199 and
   226-228): append the call, then, on an index that is a multiple of 100,
   pass a safepoint that takes `a`; on other indices `a` is empty.
   */
  method EmitWithSafepoint(cur: seq<Event>, e: Event, i: nat, g: Prng, env: ScatterEnv)
    returns (cur': seq<Event>, g': Prng, a: seq<Action>)
    requires !e.Safepoint?
    requires SafepointsDecided(cur, env)
    ensures cur' == cur + Step(e, i, a)
    ensures i % SafepointStride != 0 ==> a == [] && g' == g
    ensures SafepointsDecided(cur', env)
    ensures g'.stream == g.stream
  {
    DecidedSnoc(cur, env, e);
    cur', g', a := cur + [e], g, [];
    if i % SafepointStride == 0 {
      var r := SimulateGCSafepoint(env.pauseAt(|cur'|), g);
      a, g' := r.0, r.1;
      DecidedSnoc(cur', env, Safepoint(a));
      cur' := cur' + [Safepoint(a)];
    }
  }

  /**
   The prepare loop of DoReads (lines 186-200): for each sampled page draw the
   byte count wanted from [4, 0x01E00000] and prepare a read of it, passing a
   safepoint after every index that is a multiple of 100.
   */
  method PrepareReads(pages: seq<PageEntry>, calls: seq<Event>, g: Prng, env: ScatterEnv)
    returns (calls': seq<Event>, cbWants: seq<nat>, g': Prng, acts: seq<seq<Action>>)
    requires SafepointsDecided(calls, env)
    ensures |cbWants| == |pages| && |acts| == |pages|
    ensures forall i :: 0 <= i < |cbWants| ==> MinWant <= cbWants[i] <= MaxWant
    ensures calls' == calls + Interleaved(PrepareCalls(pages, cbWants), acts)
    ensures SafepointsDecided(calls', env)
    ensures g'.stream == g.stream
  {
    calls', cbWants, g', acts := calls, [], g, [];
    for i := 0 to |pages|
      invariant |cbWants| == i && |acts| == i
      invariant forall k :: 0 <= k < i ==> MinWant <= cbWants[k] <= MaxWant
      invariant calls' == calls + Interleaved(PrepareCalls(pages[..i], cbWants), acts)
      invariant SafepointsDecided(calls', env)
      invariant g'.stream == g.stream
    {
      var cb, a;
      cb, g' := Uniform(g', MinWant, MaxWant).0, Uniform(g', MinWant, MaxWant).1;
      var e := Prepare(pages[i].pageBase, cb);
      ghost var before := calls';
      calls', g', a := EmitWithSafepoint(calls', e, i, g', env);
      PrepareStep(calls, before, pages, i, cbWants, acts, cb, a);
      cbWants, acts := cbWants + [cb], acts + [a];
    }
    assert pages[..|pages|] == pages;
  }

  /** One more pass of the prepare loop adds its call and, on a multiple of 100, its safepoint. */
  lemma PrepareStep(calls: seq<Event>, cur: seq<Event>, pages: seq<PageEntry>, i: nat, cbWants: seq<nat>,
                    acts: seq<seq<Action>>, cb: nat, a: seq<Action>)
    requires i < |pages| && |cbWants| == i && |acts| == i
    requires cur == calls + Interleaved(PrepareCalls(pages[..i], cbWants), acts)
    ensures cur + Step(Prepare(pages[i].pageBase, cb), i, a)
            == calls + Interleaved(PrepareCalls(pages[..i + 1], cbWants + [cb]), acts + [a])
  {
    var body, e := PrepareCalls(pages[..i], cbWants), Prepare(pages[i].pageBase, cb);
    assert pages[..i + 1] == pages[..i] + [pages[i]];
    PrepareCallsSnoc(pages[..i], cbWants, pages[i], cb);
    assert PrepareCalls(pages[..i + 1], cbWants + [cb]) == body + [e];
    InterleavedSnoc(body, acts, e, a);
    Regroup(calls, Interleaved(body, acts), Step(e, i, a));
  }

  /** Appending to a trace in two steps. */
  lemma Regroup(a: seq<Event>, b: seq<Event>, c: seq<Event>)
    ensures a + b + c == a + (b + c)
  {
  }

  /**
   The read loop of DoReads (lines 211-229): read every prepared page back,
   truncated to one page, passing a safepoint after every index that is a
   multiple of 100.
   */
  method ReadBack(pages: seq<PageEntry>, cbWants: seq<nat>, calls: seq<Event>, g: Prng, env: ScatterEnv)
    returns (calls': seq<Event>, g': Prng, acts: seq<seq<Action>>)
    requires |cbWants| == |pages|
    requires SafepointsDecided(calls, env)
    ensures |acts| == |pages|
    ensures calls' == calls + Interleaved(ReadCalls(pages, cbWants), acts)
    ensures SafepointsDecided(calls', env)
    ensures g'.stream == g.stream
  {
    calls', g', acts := calls, g, [];
    for i := 0 to |pages|
      invariant |acts| == i
      invariant calls' == calls + Interleaved(ReadCalls(pages[..i], cbWants[..i]), acts)
      invariant SafepointsDecided(calls', env)
      invariant g'.stream == g.stream
    {
      var a;
      var e := Read(pages[i].pageBase, Min(cbWants[i], PageSize));
      ghost var before := calls';
      calls', g', a := EmitWithSafepoint(calls', e, i, g', env);
      ReadStep(calls, before, pages, cbWants, i, acts, a);
      acts := acts + [a];
    }
    assert pages[..|pages|] == pages && cbWants[..|pages|] == cbWants;
  }

  /** One more pass of the read loop adds its call and, on a multiple of 100, its safepoint. */
  lemma ReadStep(calls: seq<Event>, cur: seq<Event>, pages: seq<PageEntry>, cbWants: seq<nat>, i: nat,
                 acts: seq<seq<Action>>, a: seq<Action>)
    requires i < |pages| == |cbWants| && |acts| == i
    requires cur == calls + Interleaved(ReadCalls(pages[..i], cbWants[..i]), acts)
    ensures cur + Step(Read(pages[i].pageBase, Min(cbWants[i], PageSize)), i, a)
            == calls + Interleaved(ReadCalls(pages[..i + 1], cbWants[..i + 1]), acts + [a])
  {
    var body, e := ReadCalls(pages[..i], cbWants[..i]), Read(pages[i].pageBase, Min(cbWants[i], PageSize));
    assert pages[..i + 1] == pages[..i] + [pages[i]] && cbWants[..i + 1] == cbWants[..i] + [cbWants[i]];
    ReadCallsSnoc(pages[..i], cbWants[..i], pages[i], cbWants[i]);
    assert ReadCalls(pages[..i + 1], cbWants[..i + 1]) == body + [e];
    InterleavedSnoc(body, acts, e, a);
    Regroup(calls, Interleaved(body, acts), Step(e, i, a));
  }

  /** Passing a safepoint at the end of the trace so far (SimulateGCSafepoint, lines 140-158). */
  method PassSafepoint(cur: seq<Event>, g: Prng, env: ScatterEnv) returns (cur': seq<Event>, g': Prng, a: seq<Action>)
    requires SafepointsDecided(cur, env)
    ensures cur' == cur + [Safepoint(a)]
    ensures SafepointsDecided(cur', env)
    ensures g' == Advance(g, 1)
  {
    var r := SimulateGCSafepoint(env.pauseAt(|cur|), g);
    a, g' := r.0, r.1;
    DecidedSnoc(cur, env, Safepoint(a));
    cur' := cur + [Safepoint(a)];
  }

  /**
   The part of DoReads after the handle opened (lines 183-231): a safepoint,
   the prepare loop, a safepoint, Execute, a safepoint, the read loop and the
   final CloseHandle. `first` is what the safepoint before Initialize took.
   */
  method ScatterBatch(sample: seq<PageEntry>, head: seq<Event>, first: seq<Action>, g: Prng, env: ScatterEnv)
    returns (calls: seq<Event>, cbWants: seq<nat>, g': Prng, p: Pauses)
    requires SafepointsDecided(head, env)
    ensures Fits(sample, cbWants, p) && p.beforeInit == first
    ensures calls == head + BatchTrace(sample, cbWants, p)
    ensures forall i :: 0 <= i < |cbWants| ==> MinWant <= cbWants[i] <= MaxWant
    ensures SafepointsDecided(calls, env)
    ensures g'.stream == g.stream
  {
    var c0, c1, c2, c3, c4, c5, a0, a1, a2, pa, ra;
    c0, g', a0 := PassSafepoint(head, g, env);
    c1, cbWants, g', pa := PrepareReads(sample, c0, g', env);
    c2, g', a1 := PassSafepoint(c1, g', env);
    DecidedSnoc(c2, env, Execute);
    c3 := c2 + [Execute];
    c4, g', a2 := PassSafepoint(c3, g', env);
    c5, g', ra := ReadBack(sample, cbWants, c4, g', env);
    DecidedSnoc(c5, env, Close);
    calls := c5 + [Close];
    p := Pauses(first, a0, pa, a1, a2, ra);
    BatchAssoc(head, [Safepoint(a0)], Interleaved(PrepareCalls(sample, cbWants), pa), [Safepoint(a1)],
               [Execute], [Safepoint(a2)], Interleaved(ReadCalls(sample, cbWants), ra), [Close]);
  }

  /** Regrouping the sections of a batch after the trace before it. */
  lemma BatchAssoc(h: seq<Event>, s0: seq<Event>, s1: seq<Event>, s2: seq<Event>, s3: seq<Event>,
                   s4: seq<Event>, s5: seq<Event>, s6: seq<Event>)
    ensures h + s0 + s1 + s2 + s3 + s4 + s5 + s6 == h + (s0 + s1 + s2 + s3 + s4 + s5 + s6)
  {
  }

  /**
   DoReads from the first safepoint on (lines 174-231), for a given batch and
   flags: a safepoint, then VMMDLL_Scatter_Initialize; when it gives no
   handle nothing else is called, otherwise the batch runs and the handle is
   closed.
   */
  method ScatterIteration(sample: seq<PageEntry>, flags: nat, g: Prng, env: ScatterEnv)
    returns (calls: seq<Event>, cbWants: seq<nat>, g': Prng, p: Pauses)
    ensures env.opens ==> Fits(sample, cbWants, p)
    ensures calls == IterationTrace(flags, env.opens, sample, cbWants, p)
    ensures |cbWants| == if env.opens then |sample| else 0
    ensures forall i :: 0 <= i < |cbWants| ==> MinWant <= cbWants[i] <= MaxWant
    ensures SafepointsDecided(calls, env)
    ensures g'.stream == g.stream
  {
    var c0, a;
    c0, g', a := PassSafepoint([], g, env);
    var init := Initialize(PhysicalPid, flags, env.opens);
    DecidedSnoc(c0, env, init);
    var head := c0 + [init];
    if env.opens {
      calls, cbWants, g', p := ScatterBatch(sample, head, a, g', env);
    } else {
      calls, cbWants, p := head, [], Pauses(a, [], [], [], [], []);
    }
  }

  /**
   DoReads (lines 160-232): pick the cache flag and a batch of 4 to 4096 pages
   sampled from the pool, pass a safepoint, open a scatter handle on the
   physical address space; when that fails stop there, otherwise prepare
   every page, execute, read every page back and close the handle, with the
   safepoints of the source in between.
   */
  method DoReads(vmm: VmmSession, g: Prng, env: ScatterEnv)
    returns (calls: seq<Event>, g': Prng, noCache: bool, sample: seq<PageEntry>, cbWants: seq<nat>, pauses: Pauses)
    requires |vmm.pages| > 0
    ensures g'.stream == g.stream
    ensures MinCount <= |sample| <= MaxCount
    ensures sample == Sample(vmm.pages, Advance(g, 2), |sample|)
    ensures |cbWants| == if env.opens then |sample| else 0
    ensures forall i :: 0 <= i < |cbWants| ==> MinWant <= cbWants[i] <= MaxWant
    ensures env.opens ==> Fits(sample, cbWants, pauses)
    ensures calls == IterationTrace(FlagsFromBool(noCache), env.opens, sample, cbWants, pauses)
    ensures SafepointsDecided(calls, env)
    ensures |calls| >= 2 && calls[0].Safepoint? && calls[1] == Initialize(PhysicalPid, FlagsFromBool(noCache), env.opens)
    ensures !env.opens ==> |calls| == 2
    ensures env.opens ==>
              var j := ExecuteAt(|sample|);
              && |calls| == 2 * j - 1
              && calls[2].Safepoint?
              && calls[j - 1].Safepoint? && calls[j] == Execute && calls[j + 1].Safepoint?
              && calls[|calls| - 1] == Close
    ensures env.opens ==> Protocol(calls) == OpenedProtocol(FlagsFromBool(noCache), sample, cbWants)
    ensures env.opens ==> Count(calls, SafepointKind) == 4 + 2 * ((|sample| + SafepointStride - 1) / SafepointStride)
    ensures Count(calls, OpenedKind) == Count(calls, CloseKind) == if env.opens then 1 else 0
  {
    var bit, count;
    bit, g' := Uniform(g, 0, 1).0, Uniform(g, 0, 1).1;
    noCache := bit == 1;
    var flags := FlagsFromBool(bit == 1);
    count, g' := Uniform(g', MinCount, MaxCount).0, Uniform(g', MinCount, MaxCount).1;
    assert g' == Advance(g, 2);
    sample, g' := vmm.GetRandomPages(g', count);
    calls, cbWants, g', pauses := ScatterIteration(sample, flags, g', env);
    IterationShape(flags, env.opens, sample, cbWants, pauses);
  }
}
