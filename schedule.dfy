/**
 Where DoReads passes its safepoints: the exact sequence of events one call of
 DoReads produces, given the actions each of its safepoints takes, and what
 that sequence is made of.
 */
module Schedule {
  import opened Pages
  import opened Safepoints
  import opened Trace

  /** A loop safepoint fires on every index that is a multiple of this. */
  const SafepointStride: nat := 100

  /** The number of indices in [0, n) on which a loop of DoReads passes a safepoint. */
  function LoopSafepoints(n: nat): nat
  {
    if n == 0 then 0
    else LoopSafepoints(n - 1) + (if (n - 1) % SafepointStride == 0 then 1 else 0)
  }

  /** A loop over n items passes ceil(n / 100) safepoints. */
  lemma {:induction false} LoopSafepointsCeiling(n: nat)
    ensures LoopSafepoints(n) == (n + SafepointStride - 1) / SafepointStride
  {
    if n > 0 {
      LoopSafepointsCeiling(n - 1);
    }
  }

  /** Later indices have passed at least as many safepoints. */
  lemma {:induction false} LoopSafepointsMonotone(a: nat, b: nat)
    requires a <= b
    ensures LoopSafepoints(a) <= LoopSafepoints(b)
    decreases b
  {
    if a < b {
      LoopSafepointsMonotone(a, b - 1);
    }
  }

  /** One pass of a DoReads loop: its call, then, on an index that is a multiple of 100, a safepoint taking `a`. */
  function Step(e: Event, i: nat, a: seq<Action>): seq<Event>
  {
    [e] + (if i % SafepointStride == 0 then [Safepoint(a)] else [])
  }

  /**
   A DoReads loop over the calls `body`: call i, followed by a safepoint taking
   `acts[i]` when i is a multiple of 100 (the other entries of `acts` go unused).
   */
  function Interleaved(body: seq<Event>, acts: seq<seq<Action>>): (t: seq<Event>)
    requires |acts| == |body|
    ensures |t| == |body| + LoopSafepoints(|body|)
  {
    if body == [] then []
    else
      var n := |body| - 1;
      Interleaved(body[..n], acts[..n]) + Step(body[n], n, acts[n])
  }

  lemma InterleavedSnoc(body: seq<Event>, acts: seq<seq<Action>>, e: Event, a: seq<Action>)
    requires |acts| == |body|
    ensures Interleaved(body + [e], acts + [a]) == Interleaved(body, acts) + Step(e, |body|, a)
  {
    assert (body + [e])[..|body|] == body && (acts + [a])[..|body|] == acts;
  }

  /** Where call i of a loop stands: after the i calls and the safepoints before it. */
  function CallAt(i: nat): nat
  {
    i + LoopSafepoints(i)
  }

  /**
   Call i of a loop stands at CallAt(i) and is directly followed by a
   safepoint when i is a multiple of 100.
   */
  lemma {:induction false} InterleavedAt(body: seq<Event>, acts: seq<seq<Action>>, i: nat)
    requires |acts| == |body| && i < |body|
    ensures CallAt(i + 1) <= |Interleaved(body, acts)|
    ensures Interleaved(body, acts)[CallAt(i)] == body[i]
    ensures i % SafepointStride == 0 ==> Interleaved(body, acts)[CallAt(i) + 1] == Safepoint(acts[i])
  {
    var n := |body| - 1;
    var t' := Interleaved(body[..n], acts[..n]);
    assert Interleaved(body, acts) == t' + Step(body[n], n, acts[n]);
    if i < n {
      InterleavedAt(body[..n], acts[..n], i);
      LoopSafepointsMonotone(i + 1, n);
      assert body[..n][i] == body[i] && acts[..n][i] == acts[i];
    }
  }

  /** A loop's protocol view is its calls, and it passes LoopSafepoints safepoints. */
  lemma InterleavedProtocol(body: seq<Event>, acts: seq<seq<Action>>)
    requires |acts| == |body|
    requires forall i :: 0 <= i < |body| ==> !body[i].Safepoint?
    ensures Protocol(Interleaved(body, acts)) == body
    ensures Count(Interleaved(body, acts), SafepointKind) == LoopSafepoints(|body|)
  {
    InterleavedPlain(body, acts);
    InterleavedSafepoints(body, acts);
  }

  lemma InterleavedPlain(body: seq<Event>, acts: seq<seq<Action>>)
    requires |acts| == |body|
    requires forall i :: 0 <= i < |body| ==> !body[i].Safepoint?
    ensures Protocol(Interleaved(body, acts)) == body
  {
    InterleavedPlainFrom(body, acts, |body|);
    assert body[..|body|] == body && acts[..|body|] == acts;
  }

  lemma {:induction false} InterleavedPlainFrom(body: seq<Event>, acts: seq<seq<Action>>, n: nat)
    requires |acts| == |body| && n <= |body|
    requires forall i :: 0 <= i < |body| ==> !body[i].Safepoint?
    ensures Protocol(Interleaved(body[..n], acts[..n])) == body[..n]
  {
    if n > 0 {
      var t' := Interleaved(body[..n - 1], acts[..n - 1]);
      var s := Step(body[n - 1], n - 1, acts[n - 1]);
      assert body[..n][..n - 1] == body[..n - 1] && acts[..n][..n - 1] == acts[..n - 1];
      assert Interleaved(body[..n], acts[..n]) == t' + s;
      InterleavedPlainFrom(body, acts, n - 1);
      ProtocolAppend(t', s);
      StepProtocol(body[n - 1], n - 1, acts[n - 1]);
      assert body[..n - 1] + [body[n - 1]] == body[..n];
    }
  }

  /** One pass of a loop, without its safepoint, is its call. */
  lemma StepProtocol(e: Event, i: nat, a: seq<Action>)
    requires !e.Safepoint?
    ensures Protocol(Step(e, i, a)) == [e]
  {
    ProtocolSingle(e);
    if i % SafepointStride == 0 {
      ProtocolAppend([e], [Safepoint(a)]);
      ProtocolSingle(Safepoint(a));
    } else {
      assert Step(e, i, a) == [e];
    }
  }

  lemma {:induction false} InterleavedSafepoints(body: seq<Event>, acts: seq<seq<Action>>)
    requires |acts| == |body|
    requires forall i :: 0 <= i < |body| ==> !body[i].Safepoint?
    ensures Count(Interleaved(body, acts), SafepointKind) == LoopSafepoints(|body|)
  {
    if body != [] {
      var n := |body| - 1;
      var t' := Interleaved(body[..n], acts[..n]);
      var s := Step(body[n], n, acts[n]);
      InterleavedSafepoints(body[..n], acts[..n]);
      CountAppend(t', s, SafepointKind);
      CountSingle(body[n], SafepointKind);
      if n % SafepointStride == 0 {
        CountAppend([body[n]], [Safepoint(acts[n])], SafepointKind);
        CountSingle(Safepoint(acts[n]), SafepointKind);
      } else {
        assert s == [body[n]];
      }
    }
  }

  /** The actions of every safepoint one DoReads call passes, in the order it passes them. */
  datatype Pauses = Pauses(beforeInit: seq<Action>, afterInit: seq<Action>, prepare: seq<seq<Action>>,
                           beforeExecute: seq<Action>, afterExecute: seq<Action>, read: seq<seq<Action>>)

  /** The byte counts wanted and the loop safepoints are one per sampled page. */
  predicate Fits(sample: seq<PageEntry>, cbWants: seq<nat>, p: Pauses)
  {
    |cbWants| == |sample| && |p.prepare| == |sample| && |p.read| == |sample|
  }

  /**
   What DoReads does once its handle opened (lines 183-231): a safepoint, the
   prepare loop, a safepoint, Execute, a safepoint, the read loop, CloseHandle.
   */
  function BatchTrace(sample: seq<PageEntry>, cbWants: seq<nat>, p: Pauses): seq<Event>
    requires Fits(sample, cbWants, p)
  {
    [Safepoint(p.afterInit)] + Interleaved(PrepareCalls(sample, cbWants), p.prepare)
    + [Safepoint(p.beforeExecute)] + [Execute] + [Safepoint(p.afterExecute)]
    + Interleaved(ReadCalls(sample, cbWants), p.read) + [Close]
  }

  /**
   The events of one DoReads call from its first safepoint on (lines 174-231):
   a safepoint and Initialize, then, when that gave a handle, the batch.
   */
  function IterationTrace(flags: nat, opens: bool, sample: seq<PageEntry>, cbWants: seq<nat>, p: Pauses): seq<Event>
    requires opens ==> Fits(sample, cbWants, p)
  {
    [Safepoint(p.beforeInit)] + [Initialize(PhysicalPid, flags, opens)]
    + (if opens then BatchTrace(sample, cbWants, p) else [])
  }

  /** Where Execute stands in the trace of an opened call over n pages. */
  function ExecuteAt(n: nat): nat
  {
    4 + CallAt(n)
  }

  /**
   The safepoints DoReads places around its batch: one between
   Initialize and the first Prepare, one directly before Execute, one directly
   after it; CloseHandle is the last event.
   */
  lemma IterationPlaces(flags: nat, sample: seq<PageEntry>, cbWants: seq<nat>, p: Pauses)
    requires Fits(sample, cbWants, p)
    ensures var t := IterationTrace(flags, true, sample, cbWants, p);
            var j := ExecuteAt(|sample|);
            && |t| == 2 * j - 1
            && t[0] == Safepoint(p.beforeInit) && t[1] == Initialize(PhysicalPid, flags, true)
            && t[2] == Safepoint(p.afterInit)
            && t[j - 1] == Safepoint(p.beforeExecute) && t[j] == Execute && t[j + 1] == Safepoint(p.afterExecute)
            && t[|t| - 1] == Close
  {
  }

  /**
   The prepare loop of an opened call: Prepare i stands at 3 + CallAt(i),
   directly followed by a safepoint when i is a multiple of 100.
   */
  lemma IterationPrepareAt(flags: nat, sample: seq<PageEntry>, cbWants: seq<nat>, p: Pauses, i: nat)
    requires Fits(sample, cbWants, p) && i < |sample|
    ensures var t := IterationTrace(flags, true, sample, cbWants, p);
            && 4 + CallAt(i) < |t|
            && t[3 + CallAt(i)] == Prepare(sample[i].pageBase, cbWants[i])
            && (i % SafepointStride == 0 ==> t[4 + CallAt(i)] == Safepoint(p.prepare[i]))
  {
    var b := BatchTrace(sample, cbWants, p);
    BatchPrepareAt(sample, cbWants, p, i);
    assert IterationTrace(flags, true, sample, cbWants, p)
           == [Safepoint(p.beforeInit)] + [Initialize(PhysicalPid, flags, true)] + b;
  }

  /**
   The read loop of an opened call: Read i stands at j + 2 + CallAt(i), j
   being where Execute stands, directly followed by a safepoint when i is a
   multiple of 100.
   */
  lemma IterationReadAt(flags: nat, sample: seq<PageEntry>, cbWants: seq<nat>, p: Pauses, i: nat)
    requires Fits(sample, cbWants, p) && i < |sample|
    ensures var t := IterationTrace(flags, true, sample, cbWants, p);
            var j := ExecuteAt(|sample|);
            && j + 2 + CallAt(i + 1) < |t|
            && t[j + 2 + CallAt(i)] == Read(sample[i].pageBase, Min(cbWants[i], PageSize))
            && (i % SafepointStride == 0 ==> t[j + 3 + CallAt(i)] == Safepoint(p.read[i]))
  {
    var b := BatchTrace(sample, cbWants, p);
    BatchReadAt(sample, cbWants, p, i);
    assert IterationTrace(flags, true, sample, cbWants, p)
           == [Safepoint(p.beforeInit)] + [Initialize(PhysicalPid, flags, true)] + b;
  }

  /** Prepare i stands at 1 + CallAt(i) of the batch. */
  lemma BatchPrepareAt(sample: seq<PageEntry>, cbWants: seq<nat>, p: Pauses, i: nat)
    requires Fits(sample, cbWants, p) && i < |sample|
    ensures var b := BatchTrace(sample, cbWants, p);
            && |b| == 2 * CallAt(|sample|) + 5
            && 2 + CallAt(i) < |b|
            && b[1 + CallAt(i)] == Prepare(sample[i].pageBase, cbWants[i])
            && (i % SafepointStride == 0 ==> b[2 + CallAt(i)] == Safepoint(p.prepare[i]))
  {
    var prep := Interleaved(PrepareCalls(sample, cbWants), p.prepare);
    PrepareCallsContents(sample, cbWants);
    InterleavedAt(PrepareCalls(sample, cbWants), p.prepare, i);
    var front := [Safepoint(p.afterInit)] + prep;
    assert front[1 + CallAt(i)] == prep[CallAt(i)];
    assert i % SafepointStride == 0 ==> front[2 + CallAt(i)] == prep[CallAt(i) + 1];
  }

  /** Read i stands at ExecuteAt(n) + CallAt(i) of the batch, n being the number of pages. */
  lemma BatchReadAt(sample: seq<PageEntry>, cbWants: seq<nat>, p: Pauses, i: nat)
    requires Fits(sample, cbWants, p) && i < |sample|
    ensures var b := BatchTrace(sample, cbWants, p);
            && |b| == 2 * CallAt(|sample|) + 5
            && ExecuteAt(|sample|) + CallAt(i + 1) < |b|
            && b[ExecuteAt(|sample|) + CallAt(i)] == Read(sample[i].pageBase, Min(cbWants[i], PageSize))
            && (i % SafepointStride == 0 ==> b[ExecuteAt(|sample|) + 1 + CallAt(i)] == Safepoint(p.read[i]))
  {
    var fetches := Interleaved(ReadCalls(sample, cbWants), p.read);
    ReadCallsContents(sample, cbWants);
    InterleavedAt(ReadCalls(sample, cbWants), p.read, i);
    var front := [Safepoint(p.afterInit)] + Interleaved(PrepareCalls(sample, cbWants), p.prepare)
                 + [Safepoint(p.beforeExecute)] + [Execute] + [Safepoint(p.afterExecute)];
    assert |front| == ExecuteAt(|sample|);
    assert BatchTrace(sample, cbWants, p) == front + fetches + [Close];
  }

  /** Prepare and Read calls are no safepoints. */
  lemma CallsPlain(sample: seq<PageEntry>, cbWants: seq<nat>)
    requires |sample| == |cbWants|
    ensures forall i :: 0 <= i < |sample| ==> !PrepareCalls(sample, cbWants)[i].Safepoint?
    ensures forall i :: 0 <= i < |sample| ==> !ReadCalls(sample, cbWants)[i].Safepoint?
  {
    PrepareCallsContents(sample, cbWants);
    ReadCallsContents(sample, cbWants);
  }

  /** Both loops of an opened call, without their safepoints, are their calls. */
  lemma LoopsPlain(sample: seq<PageEntry>, cbWants: seq<nat>, p: Pauses)
    requires Fits(sample, cbWants, p)
    ensures Protocol(Interleaved(PrepareCalls(sample, cbWants), p.prepare)) == PrepareCalls(sample, cbWants)
    ensures Protocol(Interleaved(ReadCalls(sample, cbWants), p.read)) == ReadCalls(sample, cbWants)
    ensures Count(Interleaved(PrepareCalls(sample, cbWants), p.prepare), SafepointKind) == LoopSafepoints(|sample|)
    ensures Count(Interleaved(ReadCalls(sample, cbWants), p.read), SafepointKind) == LoopSafepoints(|sample|)
  {
    PrepareLoopPlain(sample, cbWants, p);
    CallsPlain(sample, cbWants);
    InterleavedProtocol(ReadCalls(sample, cbWants), p.read);
  }

  lemma PrepareLoopPlain(sample: seq<PageEntry>, cbWants: seq<nat>, p: Pauses)
    requires Fits(sample, cbWants, p)
    ensures Protocol(Interleaved(PrepareCalls(sample, cbWants), p.prepare)) == PrepareCalls(sample, cbWants)
    ensures Count(Interleaved(PrepareCalls(sample, cbWants), p.prepare), SafepointKind) == LoopSafepoints(|sample|)
  {
    CallsPlain(sample, cbWants);
    InterleavedProtocol(PrepareCalls(sample, cbWants), p.prepare);
  }

  /** The batch of an opened call without its safepoints. */
  lemma BatchProtocol(sample: seq<PageEntry>, cbWants: seq<nat>, p: Pauses)
    requires Fits(sample, cbWants, p)
    ensures Protocol(BatchTrace(sample, cbWants, p))
            == PrepareCalls(sample, cbWants) + [Execute] + ReadCalls(sample, cbWants) + [Close]
  {
    var front := [Safepoint(p.afterInit)] + Interleaved(PrepareCalls(sample, cbWants), p.prepare)
                 + [Safepoint(p.beforeExecute)] + [Execute] + [Safepoint(p.afterExecute)];
    var fetches := Interleaved(ReadCalls(sample, cbWants), p.read);
    LoopsPlain(sample, cbWants, p);
    FrontProtocol(sample, cbWants, p);
    ProtocolAppend(front + fetches, [Close]);
    ProtocolAppend(front, fetches);
    ProtocolSingle(Close);
  }

  /** The batch up to the safepoint after Execute, without its safepoints: the Prepare calls and Execute. */
  lemma FrontProtocol(sample: seq<PageEntry>, cbWants: seq<nat>, p: Pauses)
    requires Fits(sample, cbWants, p)
    ensures Protocol([Safepoint(p.afterInit)] + Interleaved(PrepareCalls(sample, cbWants), p.prepare)
                     + [Safepoint(p.beforeExecute)] + [Execute] + [Safepoint(p.afterExecute)])
            == PrepareCalls(sample, cbWants) + [Execute]
  {
    var s0, s1, s2, s3, s4 := [Safepoint(p.afterInit)], Interleaved(PrepareCalls(sample, cbWants), p.prepare),
                              [Safepoint(p.beforeExecute)], [Execute], [Safepoint(p.afterExecute)];
    var prep := PrepareCalls(sample, cbWants);
    PrepareLoopPlain(sample, cbWants, p);
    ProtocolSingle(Safepoint(p.afterInit));
    ProtocolAppend(s0, s1);
    assert Protocol(s0 + s1) == prep;
    ProtocolSingle(Safepoint(p.beforeExecute));
    ProtocolAppend(s0 + s1, s2);
    assert Protocol(s0 + s1 + s2) == prep;
    ProtocolSingle(Execute);
    ProtocolAppend(s0 + s1 + s2, s3);
    assert Protocol(s0 + s1 + s2 + s3) == prep + [Execute];
    ProtocolSingle(Safepoint(p.afterExecute));
    ProtocolAppend(s0 + s1 + s2 + s3, s4);
  }

  /** With the safepoints left out, an opened call is the opened protocol. */
  lemma IterationProtocol(flags: nat, sample: seq<PageEntry>, cbWants: seq<nat>, p: Pauses)
    requires Fits(sample, cbWants, p)
    ensures Protocol(IterationTrace(flags, true, sample, cbWants, p)) == OpenedProtocol(flags, sample, cbWants)
  {
    var init := Initialize(PhysicalPid, flags, true);
    BatchProtocol(sample, cbWants, p);
    ProtocolSingle(Safepoint(p.beforeInit));
    ProtocolSingle(init);
    ProtocolAppend([Safepoint(p.beforeInit)] + [init], BatchTrace(sample, cbWants, p));
    ProtocolAppend([Safepoint(p.beforeInit)], [init]);
  }

  /** The batch of an opened call over n pages passes 3 + 2 * LoopSafepoints(n) safepoints. */
  lemma BatchSafepoints(sample: seq<PageEntry>, cbWants: seq<nat>, p: Pauses)
    requires Fits(sample, cbWants, p)
    ensures Count(BatchTrace(sample, cbWants, p), SafepointKind) == 3 + 2 * LoopSafepoints(|sample|)
  {
    var k := SafepointKind;
    LoopsPlain(sample, cbWants, p);
    CountSingle(Safepoint(p.afterInit), k);
    CountSingle(Safepoint(p.beforeExecute), k);
    CountSingle(Execute, k);
    CountSingle(Safepoint(p.afterExecute), k);
    CountSingle(Close, k);
    CountSeven([Safepoint(p.afterInit)], Interleaved(PrepareCalls(sample, cbWants), p.prepare),
               [Safepoint(p.beforeExecute)], [Execute], [Safepoint(p.afterExecute)],
               Interleaved(ReadCalls(sample, cbWants), p.read), [Close], k);
  }

  lemma CountSeven(s0: seq<Event>, s1: seq<Event>, s2: seq<Event>, s3: seq<Event>,
                   s4: seq<Event>, s5: seq<Event>, s6: seq<Event>, k: Kind)
    ensures Count(s0 + s1 + s2 + s3 + s4 + s5 + s6, k)
            == Count(s0, k) + Count(s1, k) + Count(s2, k) + Count(s3, k) + Count(s4, k) + Count(s5, k) + Count(s6, k)
  {
    CountAppend(s0 + s1 + s2 + s3 + s4 + s5, s6, k);
    CountAppend(s0 + s1 + s2 + s3 + s4, s5, k);
    CountAppend(s0 + s1 + s2 + s3, s4, k);
    CountAppend(s0 + s1 + s2, s3, k);
    CountAppend(s0 + s1, s2, k);
    CountAppend(s0, s1, k);
  }

  /** An opened call over n pages passes 4 + 2 * ceil(n / 100) safepoints. */
  lemma IterationSafepoints(flags: nat, sample: seq<PageEntry>, cbWants: seq<nat>, p: Pauses)
    requires Fits(sample, cbWants, p)
    ensures Count(IterationTrace(flags, true, sample, cbWants, p), SafepointKind)
            == 4 + 2 * ((|sample| + SafepointStride - 1) / SafepointStride)
  {
    var init := Initialize(PhysicalPid, flags, true);
    BatchSafepoints(sample, cbWants, p);
    LoopSafepointsCeiling(|sample|);
    CountSingle(Safepoint(p.beforeInit), SafepointKind);
    CountSingle(init, SafepointKind);
    CountAppend([Safepoint(p.beforeInit)] + [init], BatchTrace(sample, cbWants, p), SafepointKind);
    CountAppend([Safepoint(p.beforeInit)], [init], SafepointKind);
  }

  /** The calls of kind `k` an opened handle adds for `n` pages, besides Initialize. */
  function OpenedCalls(k: Kind, n: nat): nat
  {
    (if k == PrepareKind then n else 0) + (if k == ExecuteKind then 1 else 0)
    + (if k == ReadKind then n else 0) + (if k == CloseKind then 1 else 0)
  }

  /**
   How many calls of each kind one DoReads call issues: its Initialize, and
   when that opened the handle one Prepare and one Read per page, one Execute
   and one Close.
   */
  lemma IterationCount(flags: nat, opens: bool, sample: seq<PageEntry>, cbWants: seq<nat>, p: Pauses, k: Kind)
    requires opens ==> Fits(sample, cbWants, p)
    requires k != SafepointKind
    ensures Count(IterationTrace(flags, opens, sample, cbWants, p), k)
            == (if Is(Initialize(PhysicalPid, flags, opens), k) then 1 else 0)
               + (if opens then OpenedCalls(k, |sample|) else 0)
  {
    var t := IterationTrace(flags, opens, sample, cbWants, p);
    if opens {
      IterationProtocol(flags, sample, cbWants, p);
      CountProtocol(t, k);
      OpenedCount(flags, sample, cbWants, k);
    } else {
      var init := Initialize(PhysicalPid, flags, opens);
      assert t == [Safepoint(p.beforeInit)] + [init];
      CountAppend([Safepoint(p.beforeInit)], [init], k);
      CountSingle(Safepoint(p.beforeInit), k);
      CountSingle(init, k);
    }
  }

  /**
   Everything one DoReads call is known to do, read off its trace: it starts
   with a safepoint and Initialize; without a handle that is all; with one,
   the safepoints stand around Execute and after Initialize, CloseHandle is
   last, the calls are the opened protocol, and it passes 4 + 2 * ceil(n / 100)
   safepoints. Either way it opens as many handles as it closes.
   */
  lemma IterationShape(flags: nat, opens: bool, sample: seq<PageEntry>, cbWants: seq<nat>, p: Pauses)
    requires opens ==> Fits(sample, cbWants, p)
    ensures var t := IterationTrace(flags, opens, sample, cbWants, p);
            && |t| >= 2 && t[0].Safepoint? && t[1] == Initialize(PhysicalPid, flags, opens)
            && (!opens ==> |t| == 2)
            && (opens ==>
                  var j := ExecuteAt(|sample|);
                  && |t| == 2 * j - 1
                  && t[2].Safepoint?
                  && t[j - 1].Safepoint? && t[j] == Execute && t[j + 1].Safepoint?
                  && t[|t| - 1] == Close)
            && (opens ==> Protocol(t) == OpenedProtocol(flags, sample, cbWants))
            && (opens ==> Count(t, SafepointKind) == 4 + 2 * ((|sample| + SafepointStride - 1) / SafepointStride))
            && Count(t, OpenedKind) == Count(t, CloseKind) == if opens then 1 else 0
  {
    if opens {
      IterationPlaces(flags, sample, cbWants, p);
      IterationProtocol(flags, sample, cbWants, p);
      IterationSafepoints(flags, sample, cbWants, p);
    }
    IterationCount(flags, opens, sample, cbWants, p, OpenedKind);
    IterationCount(flags, opens, sample, cbWants, p, CloseKind);
  }
}
