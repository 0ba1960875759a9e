/**
 The page pool of a MemProcFS session (class VmmSession in
 src/Issue14Native/Issue14Native.cpp): building the list of page entries from
 the physical-memory map, shuffling it, and sampling from it with replacement.
 */
module Pages {
  import opened Random

  /** The page size the page list is carved in. */
  const PageSize: nat := 0x1000

  /** 2^64: the range of uint64_t. */
  const U64Limit: nat := 0x1_0000_0000_0000_0000

  type u64 = x: int | 0 <= x < U64Limit

  /** Value of VMMDLL_MAP_PHYSMEM_VERSION in vmmdll.h, the map version the program accepts. */
  const PhysMemMapVersion: nat := 2

  /** uint64_t arithmetic wraps around modulo 2^64. */
  function Wrap(x: int): u64
  {
    x % U64Limit
  }

  /** PMemPageEntry: one page of a region and the bytes from its start to the region's end. */
  datatype PageEntry = PageEntry(pageBase: u64, remaining: u64)

  /** One entry (pa, cb) of the physical-memory map. */
  datatype Region = Region(pa: u64, cb: u64)

  /** The physical-memory map as VMMDLL_Map_GetPhysMem hands it back. */
  datatype PhysMemMap = PhysMemMap(version: nat, regions: seq<Region>)

  datatype SessionError = InitializeFailed | GetPhysMemFailed | UnexpectedMapVersion

  datatype Status = Success | Failure(error: SessionError)

  /** The number of entries a region of `cb` bytes contributes. */
  function EntryCount(cb: nat): nat
  {
    if cb == 0 then 0 else (cb - 1) / PageSize
  }

  /**
   The entries the inner `while (cbToEnd > 0x1000)` loop pushes when it starts
   at page `p` with `cbToEnd` bytes left, one step of the loop per call.
   */
  function RegionEntries(p: u64, cbToEnd: u64): (r: seq<PageEntry>)
    ensures |r| == EntryCount(cbToEnd)
    ensures forall k :: 0 <= k < |r| ==>
              r[k] == PageEntry(Wrap(p + k * PageSize), cbToEnd - k * PageSize)
    decreases cbToEnd
  {
    if cbToEnd > PageSize then
      var rest := RegionEntries(Wrap(p + PageSize), cbToEnd - PageSize);
      forall k | 1 <= k < 1 + |rest|
        ensures rest[k - 1] == PageEntry(Wrap(p + k * PageSize), cbToEnd - k * PageSize)
      {
        WrapAdd(p + PageSize, (k - 1) * PageSize);
      }
      [PageEntry(p, cbToEnd)] + rest
    else
      []
  }

  /** Wrapping an intermediate sum does not change the wrapped total. */
  lemma WrapAdd(x: int, y: int)
    ensures Wrap(Wrap(x) + y) == Wrap(x + y)
  {
    var q := x / U64Limit;
    assert x == q * U64Limit + Wrap(x);
    assert Wrap(x) + y == (x + y) - q * U64Limit;
    ModShift(x + y, q);
  }

  lemma ModShift(z: int, q: int)
    ensures (z - q * U64Limit) % U64Limit == z % U64Limit
  {
  }

  /** Two values closer than 2^64 apart are distinct modulo 2^64. */
  lemma WrapInjective(x: int, d: int)
    requires 0 < d < U64Limit
    ensures Wrap(x) != Wrap(x + d)
  {
    var q := x / U64Limit;
    var m := Wrap(x);
    assert x == q * U64Limit + m;
    if m + d < U64Limit {
      assert x + d == q * U64Limit + (m + d);
      ModShift(m + d, -q);
    } else {
      assert x + d == (q + 1) * U64Limit + (m + d - U64Limit);
      ModShift(m + d - U64Limit, -(q + 1));
    }
  }

  /** Entry counts at the page boundaries. */
  lemma EntryCountBoundaries()
    ensures |RegionEntries(0, 0x1000)| == 0
    ensures |RegionEntries(0, 0x1001)| == 1
    ensures |RegionEntries(0, 0x2000)| == 1
    ensures |RegionEntries(0, 0x2001)| == 2
    ensures |RegionEntries(0, 0x5000)| == 4
  {
  }

  /**
   What each entry of a region says: it lies more than one page before the
   region's end, and PageBase + RemainingBytesInSection (in uint64_t
   arithmetic) is the region's end; exactly so when the region does not cross
   2^64. An aligned region yields aligned pages.
   */
  lemma RegionEntryFacts(pa: u64, cb: u64, k: nat)
    requires k < EntryCount(cb)
    ensures var e := RegionEntries(pa, cb)[k];
            && e.remaining > PageSize
            && Wrap(e.pageBase + e.remaining) == Wrap(pa + cb)
            && (pa + cb <= U64Limit ==> e.pageBase + e.remaining == pa + cb)
            && (pa % PageSize == 0 ==> e.pageBase % PageSize == 0)
  {
    var e := RegionEntries(pa, cb)[k];
    assert e == PageEntry(Wrap(pa + k * PageSize), cb - k * PageSize);
    EntryBelowEnd(cb, k);
    EntryEnd(pa, cb, k);
    if pa % PageSize == 0 {
      AlignedWrap(pa + k * PageSize);
    }
  }

  /** Where the k-th entry of a region says the region ends. */
  lemma EntryEnd(pa: u64, cb: u64, k: nat)
    requires k * PageSize < cb
    ensures Wrap(Wrap(pa + k * PageSize) + (cb - k * PageSize)) == Wrap(pa + cb)
    ensures pa + cb <= U64Limit ==> Wrap(pa + k * PageSize) + (cb - k * PageSize) == pa + cb
  {
    WrapAdd(pa + k * PageSize, cb - k * PageSize);
    if pa + cb <= U64Limit {
      assert 0 <= pa + k * PageSize < U64Limit;
      assert Wrap(pa + k * PageSize) == pa + k * PageSize;
    }
  }

  /** The k-th entry starts at least one page and a byte before the region's end. */
  lemma EntryBelowEnd(cb: nat, k: nat)
    requires k < EntryCount(cb)
    ensures (k + 1) * PageSize < cb
  {
  }

  /** 2^64 is a multiple of the page size, so wrapping keeps alignment. */
  lemma AlignedWrap(x: int)
    requires x % PageSize == 0
    ensures Wrap(x) % PageSize == 0
  {
    var q := x / U64Limit;
    var a := x / PageSize;
    assert x == a * PageSize;
    assert x == q * U64Limit + Wrap(x);
    var m := a - q * 0x10_0000_0000_0000;
    assert Wrap(x) == m * PageSize;
  }

  /** Within one region no two entries share a PageBase. */
  lemma RegionBasesDistinct(pa: u64, cb: u64, j: nat, k: nat)
    requires j < k < EntryCount(cb)
    ensures RegionEntries(pa, cb)[j].pageBase != RegionEntries(pa, cb)[k].pageBase
  {
    EntryBelowEnd(cb, k);
    WrapInjective(pa + j * PageSize, (k - j) * PageSize);
    assert pa + j * PageSize + (k - j) * PageSize == pa + k * PageSize;
  }

  /** The number of entries the whole map contributes: the sum over its regions. */
  function TotalEntries(regions: seq<Region>): nat
  {
    if regions == [] then 0
    else TotalEntries(regions[..|regions| - 1]) + EntryCount(regions[|regions| - 1].cb)
  }

  /** The list BuildPageList assembles before shuffling: each region's entries, in map order. */
  function Unshuffled(regions: seq<Region>): (list: seq<PageEntry>)
    ensures |list| == TotalEntries(regions)
  {
    if regions == [] then []
    else
      var last := regions[|regions| - 1];
      Unshuffled(regions[..|regions| - 1]) + RegionEntries(last.pa, last.cb)
  }

  /** Every entry of the unshuffled list is strictly more than a page from its region's end. */
  lemma {:induction false} UnshuffledAbovePage(regions: seq<Region>)
    ensures forall e :: e in Unshuffled(regions) ==> e.remaining > PageSize
  {
    if regions != [] {
      var last := regions[|regions| - 1];
      UnshuffledAbovePage(regions[..|regions| - 1]);
      forall k | 0 <= k < EntryCount(last.cb)
        ensures RegionEntries(last.pa, last.cb)[k].remaining > PageSize
      {
        RegionEntryFacts(last.pa, last.cb, k);
      }
    }
  }

  /** The three-region scenario: 8192, 4096 and 20480 bytes give 1, 0 and 4 entries. */
  lemma ThreeRegionScenario()
    ensures |RegionEntries(0, 8192)| == 1
    ensures |RegionEntries(0x10000, 4096)| == 0
    ensures |RegionEntries(0x20000, 20480)| == 4
    ensures TotalEntries([Region(0, 8192), Region(0x10000, 4096), Region(0x20000, 20480)]) == 5
  {
    var rs := [Region(0, 8192), Region(0x10000, 4096), Region(0x20000, 20480)];
    assert rs[..1] == [Region(0, 8192)] && rs[..1][..0] == [];
    assert TotalEntries(rs[..1]) == 1;
    assert rs[..2] == [Region(0, 8192), Region(0x10000, 4096)] && rs[..2][..1] == rs[..1];
    assert TotalEntries(rs[..2]) == 1;
    assert rs[..3] == rs;
  }

  /** The region loop of BuildPageList (lines 108-121). */
  method SplitRegions(regions: seq<Region>) returns (list: seq<PageEntry>)
    ensures list == Unshuffled(regions)
  {
    list := [];
    var i := 0;
    while i < |regions|
      invariant 0 <= i <= |regions|
      invariant list == Unshuffled(regions[..i])
    {
      var entry := regions[i];
      var p: u64 := entry.pa;
      var cbToEnd: u64 := entry.cb;
      while cbToEnd > PageSize
        invariant list + RegionEntries(p, cbToEnd)
                  == Unshuffled(regions[..i]) + RegionEntries(entry.pa, entry.cb)
      {
        ghost var before := list;
        list := list + [PageEntry(p, cbToEnd)];
        assert RegionEntries(p, cbToEnd)
               == [PageEntry(p, cbToEnd)] + RegionEntries(Wrap(p + PageSize), cbToEnd - PageSize);
        p := Wrap(p + PageSize);
        cbToEnd := cbToEnd - PageSize;
      }
      assert regions[..i + 1][..i] == regions[..i];
      i := i + 1;
    }
    assert regions[..i] == regions;
  }

  /** std::shuffle over the list: a Fisher-Yates pass driven by the generator. */
  method Shuffle(list: seq<PageEntry>, g: Prng) returns (shuffled: seq<PageEntry>, g': Prng)
    ensures multiset(shuffled) == multiset(list)
    ensures |shuffled| == |list|
    ensures g'.stream == g.stream
  {
    shuffled, g' := list, g;
    var i := |list|;
    while i > 1
      invariant 0 <= i <= |list|
      invariant |shuffled| == |list|
      invariant multiset(shuffled) == multiset(list)
      invariant g'.stream == g.stream
    {
      i := i - 1;
      var j;
      j, g' := Uniform(g', 0, i).0, Uniform(g', 0, i).1;
      shuffled := shuffled[i := shuffled[j]][j := shuffled[i]];
    }
  }

  /**
   Sampling with replacement: `count` draws, the i-th picking the page the i-th
   value of the generator selects.
   */
  function Sample(pages: seq<PageEntry>, g: Prng, count: nat): (r: seq<PageEntry>)
    requires |pages| > 0
    ensures |r| == count
    ensures forall i :: 0 <= i < count ==>
              r[i] == pages[Uniform(Advance(g, i), 0, |pages| - 1).0]
  {
    if count == 0 then []
    else Sample(pages, g, count - 1) + [pages[Uniform(Advance(g, count - 1), 0, |pages| - 1).0]]
  }

  /** A stream that delivers `picks` first. */
  function PicksStream(picks: seq<nat>): nat -> nat
  {
    (n: nat) => if n < |picks| then picks[n] else 0
  }

  /**
   Sampling is with replacement: every sequence of pool entries, repeats
   included, is the sample of some generator.
   */
  lemma SampleReachesEveryChoice(pages: seq<PageEntry>, picks: seq<nat>)
    requires |pages| > 0
    requires forall i :: 0 <= i < |picks| ==> picks[i] < |pages|
    ensures forall i :: 0 <= i < |picks| ==>
              Sample(pages, Prng(PicksStream(picks), 0), |picks|)[i] == pages[picks[i]]
  {
    forall i | 0 <= i < |picks|
      ensures Sample(pages, Prng(PicksStream(picks), 0), |picks|)[i] == pages[picks[i]]
    {
      DrawPicks(picks, i, |pages|);
    }
  }

  /** The i-th draw from a picks stream over [0, n) is the i-th pick. */
  lemma DrawPicks(picks: seq<nat>, i: nat, n: nat)
    requires i < |picks| && picks[i] < n
    ensures Uniform(Advance(Prng(PicksStream(picks), 0), i), 0, n - 1).0 == picks[i]
  {
    var gi := Advance(Prng(PicksStream(picks), 0), i);
    assert gi.stream(gi.pos) == picks[i];
    UniformReaches(gi, 0, n - 1, picks[i]);
  }

  /** The MemProcFS session and the page list it owns. */
  class VmmSession {
    var pages: seq<PageEntry>

    constructor ()
      ensures pages == []
    {
      pages := [];
    }

    /**
     BuildPageList: refuses a missing map or one of another version before
     building anything; otherwise `pages` becomes a permutation of the
     unshuffled list.
     */
    method BuildPageList(physMap: Option<PhysMemMap>, g: Prng) returns (status: Status)
      modifies this
      ensures status == if physMap.None? || physMap.value.version != PhysMemMapVersion
                        then Failure(UnexpectedMapVersion) else Success
      ensures status.Failure? ==> pages == old(pages)
      ensures status.Success? ==> multiset(pages) == multiset(Unshuffled(physMap.value.regions))
      ensures status.Success? ==> |pages| == TotalEntries(physMap.value.regions)
    {
      if physMap.None? || physMap.value.version != PhysMemMapVersion {
        return Failure(UnexpectedMapVersion);
      }
      var list := SplitRegions(physMap.value.regions);
      var shuffled, _ := Shuffle(list, g);
      pages := shuffled;
      status := Success;
    }

    /** GetRandomPage: one uniform pick; the pool must not be empty. */
    method GetRandomPage(g: Prng) returns (page: PageEntry, g': Prng)
      requires |pages| > 0
      ensures page in pages
      ensures page == pages[Uniform(g, 0, |pages| - 1).0]
      ensures g' == Advance(g, 1)
    {
      var i;
      i, g' := Uniform(g, 0, |pages| - 1).0, Uniform(g, 0, |pages| - 1).1;
      page := pages[i];
    }

    /** GetRandomPages: `count` picks with replacement. */
    method GetRandomPages(g: Prng, count: nat) returns (result: seq<PageEntry>, g': Prng)
      requires |pages| > 0
      ensures result == Sample(pages, g, count)
      ensures forall e :: e in result ==> e in pages
      ensures g' == Advance(g, count)
    {
      result, g' := [], g;
      for i := 0 to count
        invariant result == Sample(pages, g, i)
        invariant g' == Advance(g, i)
      {
        var page;
        page, g' := GetRandomPage(g');
        result := result + [page];
      }
    }
  }

  /**
   The VmmSession constructor: VMMDLL_Initialize and VMMDLL_Map_GetPhysMem are
   outside the model, their results are inputs; each failure is an error.
   */
  method Open(initialized: bool, physMemFetched: bool, physMap: Option<PhysMemMap>, g: Prng)
    returns (session: VmmSession, status: Status)
    ensures fresh(session)
    ensures !initialized ==> status == Failure(InitializeFailed)
    ensures initialized && !physMemFetched ==> status == Failure(GetPhysMemFailed)
    ensures initialized && physMemFetched ==>
              status == if physMap.None? || physMap.value.version != PhysMemMapVersion
                        then Failure(UnexpectedMapVersion) else Success
    ensures status.Success? ==> multiset(session.pages) == multiset(Unshuffled(physMap.value.regions))
  {
    session := new VmmSession();
    if !initialized {
      return session, Failure(InitializeFailed);
    }
    if !physMemFetched {
      return session, Failure(GetPhysMemFailed);
    }
    status := session.BuildPageList(physMap, g);
  }

  datatype Option<T> = None | Some(value: T)
}
