/**
 The observable behaviour of one worker thread, as a sequence of events: the
 calls it makes into the MemProcFS scatter API, the safepoints it passes, the
 faults it catches and the changes it makes to the shared worker count.
 */
module Trace {
  import opened Pages
  import opened Safepoints

  /** The process id DoReads opens its scatter handle with: (DWORD)-1. */
  const PhysicalPid: nat := 0xFFFF_FFFF

  /** How one loop iteration of a worker ended. */
  datatype Outcome = Ok | StdException | Unknown

  datatype Event =
    | Safepoint(actions: seq<Action>)
    | Initialize(pid: nat, flags: nat, gotHandle: bool) // VMMDLL_Scatter_Initialize, and whether it gave a handle
    | Prepare(addr: u64, cb: nat)                      // VMMDLL_Scatter_Prepare
    | Execute                                          // VMMDLL_Scatter_Execute
    | Read(addr: u64, size: nat)                       // VMMDLL_Scatter_Read
    | Close                                            // VMMDLL_Scatter_CloseHandle
    | Caught(outcome: Outcome)                         // a catch block of a worker loop
    | Enlist                                           // g_totalWorkers++
    | Retire                                           // g_totalWorkers--
    | Respawn                                          // SpawnTransientWorker

  /** The kinds of event a trace is counted by. */
  datatype Kind =
    | SafepointKind | InitializeKind | OpenedKind | PrepareKind | ExecuteKind | ReadKind | CloseKind
    | CaughtKind | CrashKind | EnlistKind | RetireKind | RespawnKind

  predicate Is(e: Event, k: Kind)
  {
    match k
    case SafepointKind => e.Safepoint?
    case InitializeKind => e.Initialize?
    case OpenedKind => e.Initialize? && e.gotHandle
    case PrepareKind => e.Prepare?
    case ExecuteKind => e.Execute?
    case ReadKind => e.Read?
    case CloseKind => e.Close?
    case CaughtKind => e.Caught?
    case CrashKind => e == Caught(Unknown)
    case EnlistKind => e.Enlist?
    case RetireKind => e.Retire?
    case RespawnKind => e.Respawn?
  }

  /** How many events of the trace are of kind `k`. */
  function Count(t: seq<Event>, k: Kind): (n: nat)
    ensures n <= |t|
  {
    if t == [] then 0
    else Count(t[..|t| - 1], k) + (if Is(t[|t| - 1], k) then 1 else 0)
  }

  /** The calls of the trace with the safepoints left out. */
  function Protocol(t: seq<Event>): (r: seq<Event>)
  {
    if t == [] then []
    else Protocol(t[..|t| - 1]) + (if t[|t| - 1].Safepoint? then [] else [t[|t| - 1]])
  }

  /** The protocol view of a concatenation is the concatenation of the views. */
  lemma {:induction false} ProtocolAppend(a: seq<Event>, b: seq<Event>)
    ensures Protocol(a + b) == Protocol(a) + Protocol(b)
    decreases |b|
  {
    if b == [] {
      assert a + b == a;
    } else {
      var b' := b[..|b| - 1];
      assert (a + b)[..|a + b| - 1] == a + b';
      ProtocolAppend(a, b');
    }
  }

  lemma ProtocolSingle(e: Event)
    ensures Protocol([e]) == if e.Safepoint? then [] else [e]
  {
    assert [e][..0] == [];
  }

  /** A trace without safepoints is its own protocol view. */
  lemma {:induction false} ProtocolPlain(t: seq<Event>)
    requires forall i :: 0 <= i < |t| ==> !t[i].Safepoint?
    ensures Protocol(t) == t
  {
    if t != [] {
      ProtocolPlain(t[..|t| - 1]);
    }
  }

  lemma {:induction false} CountAppend(a: seq<Event>, b: seq<Event>, k: Kind)
    ensures Count(a + b, k) == Count(a, k) + Count(b, k)
    decreases |b|
  {
    if b == [] {
      assert a + b == a;
    } else {
      var b' := b[..|b| - 1];
      assert (a + b)[..|a + b| - 1] == a + b';
      CountAppend(a, b', k);
    }
  }

  lemma {:induction false} CountAll(t: seq<Event>, k: Kind)
    requires forall i :: 0 <= i < |t| ==> Is(t[i], k)
    ensures Count(t, k) == |t|
  {
    if t != [] {
      CountAll(t[..|t| - 1], k);
    }
  }

  lemma {:induction false} CountNone(t: seq<Event>, k: Kind)
    requires forall i :: 0 <= i < |t| ==> !Is(t[i], k)
    ensures Count(t, k) == 0
  {
    if t != [] {
      CountNone(t[..|t| - 1], k);
    }
  }

  /** Dropping safepoints does not change how many calls of another kind there are. */
  lemma {:induction false} CountProtocol(t: seq<Event>, k: Kind)
    requires k != SafepointKind
    ensures Count(Protocol(t), k) == Count(t, k)
  {
    if t != [] {
      var t' := t[..|t| - 1];
      var e := t[|t| - 1];
      CountProtocol(t', k);
      if e.Safepoint? {
        assert Protocol(t) == Protocol(t') + [];
        assert Protocol(t') + [] == Protocol(t');
      } else {
        CountSnoc(Protocol(t'), e, k);
      }
    }
  }

  lemma CountSnoc(t: seq<Event>, e: Event, k: Kind)
    ensures Count(t + [e], k) == Count(t, k) + (if Is(e, k) then 1 else 0)
  {
    assert (t + [e])[..|t|] == t;
  }

  /** The Prepare calls for the sampled pages and the byte counts wanted. */
  function PrepareCalls(sample: seq<PageEntry>, cbWants: seq<nat>): (r: seq<Event>)
    requires |sample| == |cbWants|
    ensures |r| == |sample|
  {
    if sample == [] then []
    else
      var n := |sample| - 1;
      PrepareCalls(sample[..n], cbWants[..n]) + [Prepare(sample[n].pageBase, cbWants[n])]
  }

  lemma PrepareCallsSnoc(sample: seq<PageEntry>, cbWants: seq<nat>, page: PageEntry, cb: nat)
    requires |sample| == |cbWants|
    ensures PrepareCalls(sample + [page], cbWants + [cb])
            == PrepareCalls(sample, cbWants) + [Prepare(page.pageBase, cb)]
  {
    assert (sample + [page])[..|sample|] == sample && (cbWants + [cb])[..|sample|] == cbWants;
  }

  /** The i-th Prepare call is for the i-th page and the i-th byte count. */
  lemma {:induction false} PrepareCallsContents(sample: seq<PageEntry>, cbWants: seq<nat>)
    requires |sample| == |cbWants|
    ensures forall i :: 0 <= i < |sample| ==>
              PrepareCalls(sample, cbWants)[i] == Prepare(sample[i].pageBase, cbWants[i])
  {
    if sample != [] {
      var n := |sample| - 1;
      PrepareCallsContents(sample[..n], cbWants[..n]);
    }
  }

  function Min(a: nat, b: nat): nat
  {
    if a < b then a else b
  }

  /** The Read calls: the same pages, each read truncated to one page. */
  function ReadCalls(sample: seq<PageEntry>, cbWants: seq<nat>): (r: seq<Event>)
    requires |sample| == |cbWants|
    ensures |r| == |sample|
  {
    if sample == [] then []
    else
      var n := |sample| - 1;
      ReadCalls(sample[..n], cbWants[..n]) + [Read(sample[n].pageBase, Min(cbWants[n], PageSize))]
  }

  lemma ReadCallsSnoc(sample: seq<PageEntry>, cbWants: seq<nat>, page: PageEntry, cb: nat)
    requires |sample| == |cbWants|
    ensures ReadCalls(sample + [page], cbWants + [cb])
            == ReadCalls(sample, cbWants) + [Read(page.pageBase, Min(cb, PageSize))]
  {
    assert (sample + [page])[..|sample|] == sample && (cbWants + [cb])[..|sample|] == cbWants;
  }

  /** The i-th Read call is for the i-th page, truncated to one page. */
  lemma {:induction false} ReadCallsContents(sample: seq<PageEntry>, cbWants: seq<nat>)
    requires |sample| == |cbWants|
    ensures forall i :: 0 <= i < |sample| ==>
              ReadCalls(sample, cbWants)[i] == Read(sample[i].pageBase, Min(cbWants[i], PageSize))
  {
    if sample != [] {
      var n := |sample| - 1;
      ReadCallsContents(sample[..n], cbWants[..n]);
    }
  }

  /** The scatter calls of an iteration whose handle opened, in the order they must come. */
  function OpenedProtocol(flags: nat, sample: seq<PageEntry>, cbWants: seq<nat>): seq<Event>
    requires |sample| == |cbWants|
  {
    [Initialize(PhysicalPid, flags, true)] + PrepareCalls(sample, cbWants) + [Execute]
    + ReadCalls(sample, cbWants) + [Close]
  }

  /**
   An opened iteration issues one Initialize, then one Prepare per page, then
   a single Execute, then one Read per page for the same addresses in the same
   order, then a single Close as its last call.
   */
  lemma OpenedProtocolShape(flags: nat, sample: seq<PageEntry>, cbWants: seq<nat>)
    requires |sample| == |cbWants|
    ensures var t := OpenedProtocol(flags, sample, cbWants);
            var n := |sample|;
            && |t| == 2 * n + 3
            && Count(t, InitializeKind) == 1 && Count(t, OpenedKind) == 1
            && Count(t, PrepareKind) == n && Count(t, ExecuteKind) == 1
            && Count(t, ReadKind) == n && Count(t, CloseKind) == 1
            && t[n + 1] == Execute && t[|t| - 1] == Close
            && (forall i :: 1 <= i <= n ==> t[i].Prepare?)
            && (forall i :: n + 2 <= i < 2 * n + 2 ==> t[i].Read? && t[i].addr == t[i - n - 1].addr)
  {
    OpenedProtocolCounts(flags, sample, cbWants);
    OpenedProtocolOrder(flags, sample, cbWants);
  }

  lemma OpenedProtocolOrder(flags: nat, sample: seq<PageEntry>, cbWants: seq<nat>)
    requires |sample| == |cbWants|
    ensures var t := OpenedProtocol(flags, sample, cbWants);
            var n := |sample|;
            && |t| == 2 * n + 3
            && t[n + 1] == Execute && t[|t| - 1] == Close
            && (forall i :: 1 <= i <= n ==> t[i].Prepare?)
            && (forall i :: n + 2 <= i < 2 * n + 2 ==> t[i].Read? && t[i].addr == t[i - n - 1].addr)
  {
    PrepareCallsContents(sample, cbWants);
    ReadCallsContents(sample, cbWants);
  }

  lemma OpenedProtocolCounts(flags: nat, sample: seq<PageEntry>, cbWants: seq<nat>)
    requires |sample| == |cbWants|
    ensures var t := OpenedProtocol(flags, sample, cbWants);
            var n := |sample|;
            && Count(t, InitializeKind) == 1 && Count(t, OpenedKind) == 1
            && Count(t, PrepareKind) == n && Count(t, ExecuteKind) == 1
            && Count(t, ReadKind) == n && Count(t, CloseKind) == 1
  {
    OpenedCount(flags, sample, cbWants, InitializeKind);
    OpenedCount(flags, sample, cbWants, OpenedKind);
    OpenedCount(flags, sample, cbWants, PrepareKind);
    OpenedCount(flags, sample, cbWants, ExecuteKind);
    OpenedCount(flags, sample, cbWants, ReadKind);
    OpenedCount(flags, sample, cbWants, CloseKind);
  }

  /** How many events of one kind an opened iteration issues, section by section. */
  lemma OpenedCount(flags: nat, sample: seq<PageEntry>, cbWants: seq<nat>, k: Kind)
    requires |sample| == |cbWants|
    ensures Count(OpenedProtocol(flags, sample, cbWants), k)
            == (if Is(Initialize(PhysicalPid, flags, true), k) then 1 else 0)
               + (if k == PrepareKind then |sample| else 0)
               + (if k == ExecuteKind then 1 else 0)
               + (if k == ReadKind then |sample| else 0)
               + (if k == CloseKind then 1 else 0)
  {
    var init := [Initialize(PhysicalPid, flags, true)];
    CountSections(init, PrepareCalls(sample, cbWants), ReadCalls(sample, cbWants), k);
    CallsCount(sample, cbWants, k);
    CountSingle(Initialize(PhysicalPid, flags, true), k);
    CountSingle(Execute, k);
    CountSingle(Close, k);
  }

  lemma CountSingle(e: Event, k: Kind)
    ensures Count([e], k) == if Is(e, k) then 1 else 0
  {
    assert [e][..0] == [];
  }

  /** Prepare calls are all of PrepareKind and Read calls all of ReadKind. */
  lemma CallsCount(sample: seq<PageEntry>, cbWants: seq<nat>, k: Kind)
    requires |sample| == |cbWants|
    ensures Count(PrepareCalls(sample, cbWants), k) == if k == PrepareKind then |sample| else 0
    ensures Count(ReadCalls(sample, cbWants), k) == if k == ReadKind then |sample| else 0
  {
    var prep := PrepareCalls(sample, cbWants);
    var fetches := ReadCalls(sample, cbWants);
    PrepareCallsContents(sample, cbWants);
    ReadCallsContents(sample, cbWants);
    if k == PrepareKind { CountAll(prep, k); } else { CountNone(prep, k); }
    if k == ReadKind { CountAll(fetches, k); } else { CountNone(fetches, k); }
  }

  lemma CountSections(init: seq<Event>, prep: seq<Event>, fetches: seq<Event>, k: Kind)
    ensures Count(init + prep + [Execute] + fetches + [Close], k)
            == Count(init, k) + Count(prep, k) + Count([Execute], k) + Count(fetches, k) + Count([Close], k)
  {
    CountAppend(init + prep + [Execute] + fetches, [Close], k);
    CountAppend(init + prep + [Execute], fetches, k);
    CountAppend(init + prep, [Execute], k);
    CountAppend(init, prep, k);
  }

  /** Every read is at least as long as the smallest wanted count and at most a page. */
  lemma ReadSizesBounded(sample: seq<PageEntry>, cbWants: seq<nat>, lo: nat)
    requires |sample| == |cbWants|
    requires 0 < lo <= PageSize
    requires forall i :: 0 <= i < |cbWants| ==> lo <= cbWants[i]
    ensures forall i :: 0 <= i < |sample| ==>
              ReadCalls(sample, cbWants)[i].Read? && lo <= ReadCalls(sample, cbWants)[i].size <= PageSize
  {
    ReadCallsContents(sample, cbWants);
  }
}
