/** Whole runs of the physical memory manager. */
module PhysicalRuns {
  import opened Collections
  import opened DataType
  import opened Ranges
  import opened FreeCondition
  import opened Alignment
  import opened PhysicalMemory

  // ---------------------------------------------------------------- counting bytes

  /** The bytes `lo..hi - 1` that are free, as a finite set. */
  ghost function ByteSet(rs: seq<Range>, lo: int, hi: int): set<int> {
    set b | lo <= b < hi && Covered(rs, b)
  }

  ghost function Interval(lo: int, last: int): set<int> {
    set b | lo <= b <= last && Within(b, lo, last)
  }

  lemma {:induction false} IntervalSize(lo: int, last: int)
    requires lo <= last + 1
    ensures |Interval(lo, last)| == last + 1 - lo
    decreases last + 1 - lo
  {
    if lo <= last {
      IntervalSize(lo, last - 1);
      forall b ensures b in Interval(lo, last) <==> b in Interval(lo, last - 1) + {last} {
        assert Within(b, lo, last - 1) ==> Within(b, lo, last);
        assert Within(b, lo, last) && b != last ==> Within(b, lo, last - 1);
        assert Within(last, lo, last);
      }
      assert Interval(lo, last) == Interval(lo, last - 1) + {last};
    }
  }

  lemma ByteSetSplit(rs: seq<Range>, r: Range, lo: int, hi: int)
    requires lo <= r.start <= r.end < hi
    requires forall b :: Covered(rs, b) ==> b < r.start
    ensures ByteSet(rs + [r], lo, hi) == ByteSet(rs, lo, hi) + Interval(r.start, r.end)
    ensures ByteSet(rs, lo, hi) !! Interval(r.start, r.end)
  {
    hide Covered;
    forall b
      ensures b in ByteSet(rs + [r], lo, hi) <==> b in ByteSet(rs, lo, hi) + Interval(r.start, r.end)
    {
      CoveredConcat(rs, [r], b);
      CoveredOne(r, b);
      assert Within(b, r.start, r.end) <==> r.start <= b <= r.end;
    }
  }

  lemma LastRange(rs: seq<Range>, lo: int, hi: int)
    requires Coalesced(rs) && rs != [] && forall i :: 0 <= i < |rs| ==> lo <= rs[i].start && rs[i].end < hi
    ensures var n := |rs| - 1;
      && Coalesced(rs[..n]) && (forall i :: 0 <= i < n ==> lo <= rs[..n][i].start && rs[..n][i].end < hi)
      && lo <= rs[n].start <= rs[n].end < hi && rs == rs[..n] + [rs[n]]
      && forall b :: Covered(rs[..n], b) ==> b < rs[n].start
  {
  }

  lemma NoBytes(lo: int, hi: int)
    ensures ByteSet([], lo, hi) == {}
  {
  }

  /** `Total` counts the free bytes. */
  lemma {:induction false} TotalCounts(rs: seq<Range>, lo: int, hi: int)
    requires Coalesced(rs) && forall i :: 0 <= i < |rs| ==> lo <= rs[i].start && rs[i].end < hi
    ensures |ByteSet(rs, lo, hi)| == Total(rs)
    decreases |rs|
  {
    hide Coalesced, Covered, ByteSet, Interval;
    if rs == [] {
      NoBytes(lo, hi);
    } else {
      var n := |rs| - 1;
      LastRange(rs, lo, hi);
      TotalCounts(rs[..n], lo, hi);
      IntervalSize(rs[n].start, rs[n].end);
      ByteSetSplit(rs[..n], rs[n], lo, hi);
    }
  }

  /** Fewer bytes, smaller total. */
  lemma TotalMonotone(a: seq<Range>, b: seq<Range>)
    requires Coalesced(a) && Coalesced(b) && forall x :: Covered(a, x) ==> Covered(b, x)
    ensures Total(a) <= Total(b)
  {
    if a == [] {
      TotalPositive(b);
    } else {
      assert Covered(a, a[0].start) && Covered(a, a[|a| - 1].end);
      var lo, hi := b[0].start, b[|b| - 1].end + 1;
      InsideHull(b);
      forall i | 0 <= i < |a| ensures lo <= a[i].start && a[i].end < hi {
        assert Covered(a, a[i].start) && Covered(a, a[i].end);
      }
      TotalCounts(a, lo, hi);
      TotalCounts(b, lo, hi);
      assert ByteSet(a, lo, hi) <= ByteSet(b, lo, hi);
      SubsetSize(ByteSet(a, lo, hi), ByteSet(b, lo, hi));
    }
  }

  lemma InsideHull(b: seq<Range>)
    requires Coalesced(b) && b != []
    ensures forall x :: Covered(b, x) ==> b[0].start <= x <= b[|b| - 1].end
  {
  }

  lemma SubsetSize(a: set<int>, b: set<int>)
    requires a <= b
    ensures |a| <= |b|
  {
    assert b == a + (b - a);
  }

  // ---------------------------------------------------------------- runs

  /** What a caller can see of one call. */
  datatype Event = Gave(s: int, e: int) | Took(s: int, e: int) | Nothing

  /** The free list after a call, as the methods of the manager promise it. */
  ghost predicate Next(rs: seq<Range>, event: Event, rs': seq<Range>)
    requires Coalesced(rs)
  {
    match event
    case Nothing => rs' == rs
    case Took(s, e) => s <= e && exists i: nat :: i < |rs| && rs[i].Contains(s, e) && rs' == Carve(rs, i, s, e)
    case Gave(s, e) =>
      && s <= e
      && if rs == [] then rs' == [Range(s, e)]
         else CanFree(rs, s, e) && FreeEffect(rs, s, e).Freed? && rs' == FreeEffect(rs, s, e).ranges
  }

  /** The free bytes by plain set addition and removal. */
  ghost function FreeBytes(events: seq<Event>): iset<int> {
    if events == [] then iset{}
    else
      var before := FreeBytes(events[..|events| - 1]);
      match events[|events| - 1]
      case Nothing => before
      case Gave(s, e) => before + Block(s, e)
      case Took(s, e) => before - Block(s, e)
  }

  ghost predicate IsRun(states: seq<seq<Range>>, events: seq<Event>) {
    && |states| == |events| + 1
    && states[0] == []
    && forall k :: 0 <= k < |events| ==> Coalesced(states[k]) ==> Next(states[k], events[k], states[k + 1])
  }

  lemma NextKeeps(rs: seq<Range>, event: Event, rs': seq<Range>)
    requires Coalesced(rs) && Next(rs, event, rs')
    ensures Coalesced(rs')
    ensures Bytes(rs') ==
      match event
      case Nothing => Bytes(rs)
      case Gave(s, e) => Bytes(rs) + Block(s, e)
      case Took(s, e) => Bytes(rs) - Block(s, e)
  {
    match event
    case Nothing =>
    case Took(s, e) =>
      var i: nat :| i < |rs| && rs[i].Contains(s, e) && rs' == Carve(rs, i, s, e);
      CarveCoalesced(rs, i, s, e);
      CarveBytes(rs, i, s, e);
    case Gave(s, e) =>
      if rs == [] {
        forall x ensures Covered(rs', x) <==> s <= x <= e { CoveredOne(Range(s, e), x); }
      } else {
        FreeIsRightIff(rs, s, e);
      }
  }

  /** In every run from the empty manager the list is sorted, disjoint and coalesced,
      and covers exactly the bytes that plain set operations give. */
  lemma {:induction false} RunsKeepTheSet(states: seq<seq<Range>>, events: seq<Event>)
    requires IsRun(states, events)
    ensures Coalesced(states[|events|]) && Bytes(states[|events|]) == FreeBytes(events)
    decreases |events|
  {
    if events == [] {
      assert forall x :: !Covered([], x);
    } else {
      var n := |events| - 1;
      RunsKeepTheSet(states[..n + 1], events[..n]);
      NextKeeps(states[n], events[n], states[n + 1]);
    }
  }

  // ---------------------------------------------------------------- a client that frees what it was given

  datatype Request = Get(pages: nat, alignOrder: nat) | PutBack(k: nat)

  /** The managed memory is the disjoint union of the free bytes and the blocks handed out. */
  ghost predicate Ledger(managed: seq<Range>, rs: seq<Range>, held: seq<Range>) {
    && Coalesced(managed) && Coalesced(rs) && PageMultiple(rs) && PageMultiple(held)
    && (forall x :: Covered(managed, x) <==> Covered(rs, x) || Covered(held, x))
    && (forall k :: 0 <= k < |held| ==> Disjoint(rs, held[k].start, held[k].end))
    && (forall j, k :: 0 <= j < |held| && 0 <= k < |held| && j != k ==> held[j].Misses(held[k].start, held[k].end))
  }

  /** `free` has room in its books for every block that was handed out. */
  lemma LegalFreeAccepted(managed: seq<Range>, rs: seq<Range>, held: seq<Range>, k: nat)
    requires Ledger(managed, rs, held) && k < |held|
    ensures Total(rs) + held[k].Size() <= Total(managed)
  {
    hide PageMultiple, Total;
    var (s, e) := (held[k].start, held[k].end);
    var i := SlotOf(rs, s, e) by { HeldPages(held, k); }
    MergeCoalesced(rs, i, s, e);
    MergeTotal(rs, i, s, e);
    forall x | Covered(Merge(rs, i, s, e), x) ensures Covered(managed, x) {
      MergeCovered(rs, i, s, e, x);
      if s <= x <= e { assert Covered(held, x); }
    }
    TotalMonotone(Merge(rs, i, s, e), managed);
  }

  lemma HeldPages(held: seq<Range>, k: nat)
    requires PageMultiple(held) && k < |held|
    ensures WholePages(held[k].start, held[k].end)
  {
  }

  lemma LedgerTake(managed: seq<Range>, rs: seq<Range>, held: seq<Range>, i: nat, s: int, e: int)
    requires Ledger(managed, rs, held) && i < |rs| && rs[i].Contains(s, e) && WholePages(s, e)
    ensures Ledger(managed, Carve(rs, i, s, e), held + [Range(s, e)])
  {
    hide Carve;
    var rs', held' := Carve(rs, i, s, e), held + [Range(s, e)];
    CarveCoalesced(rs, i, s, e);
    CarvePageMultiple(rs, i, s, e);
    forall x
      ensures Covered(rs', x) <==> Covered(rs, x) && !(s <= x <= e)
      ensures Covered(held', x) <==> Covered(held, x) || s <= x <= e
    {
      CarveCovered(rs, i, s, e, x);
      CoveredConcat(held, [Range(s, e)], x);
      CoveredOne(Range(s, e), x);
    }
    forall k | 0 <= k < |held'| ensures Disjoint(rs', held'[k].start, held'[k].end) {
      if k < |held| {
        DisjointBytes(rs, held[k].start, held[k].end);
      }
      DisjointBytes(rs', held'[k].start, held'[k].end);
    }
    assert forall k :: 0 <= k < |held| ==> rs[i].Misses(held[k].start, held[k].end);
  }

  /** A block touches no entry exactly when none of its bytes is free. */
  lemma DisjointBytes(rs: seq<Range>, s: int, e: int)
    requires s <= e && NonNegative(rs)
    ensures Disjoint(rs, s, e) <==> forall x :: s <= x <= e ==> !Covered(rs, x)
  {
    if forall x :: s <= x <= e ==> !Covered(rs, x) {
      forall i | 0 <= i < |rs| ensures rs[i].Misses(s, e) {
        var x := if rs[i].start < s then s else rs[i].start;
        assert Covered(rs, x) || x > rs[i].end;
      }
    }
  }

  lemma LedgerGive(managed: seq<Range>, rs: seq<Range>, held: seq<Range>, k: nat, i: nat)
    requires Ledger(managed, rs, held) && k < |held| && Slot(rs, i, held[k].start, held[k].end)
    ensures Ledger(managed, Merge(rs, i, held[k].start, held[k].end), Dropped(held, k))
  {
    hide Merge, Dropped;
    var (s, e) := (held[k].start, held[k].end);
    var rs', held' := Merge(rs, i, s, e), Dropped(held, k);
    HeldPages(held, k);
    MergeCoalesced(rs, i, s, e);
    MergePageMultiple(rs, i, s, e);
    DroppedAt(held, k);
    forall x ensures Covered(rs', x) <==> Covered(rs, x) || s <= x <= e { MergeCovered(rs, i, s, e, x); }
    forall x ensures Covered(managed, x) <==> Covered(rs', x) || Covered(held', x) {
      DroppedCovered(held, k, x);
    }
    forall j | 0 <= j < |held'| ensures Disjoint(rs', held'[j].start, held'[j].end) {
      var m := if j < k then j else j + 1;
      HeldPages(held, m);
      DisjointBytes(rs, held[m].start, held[m].end);
      DisjointBytes(rs', held[m].start, held[m].end);
    }
  }

  lemma DroppedCovered(held: seq<Range>, k: nat, x: int)
    requires k < |held|
    ensures Covered(held, x) <==> Covered(Dropped(held, k), x) || held[k].start <= x <= held[k].end
  {
    CoveredConcat(held[..k], held[k + 1..], x);
    CoveredEnds(held, k, x);
  }

  /** Serve any sequence of requests for page-multiple blocks. Every block handed out was free and is
      taken out whole, no block given back is refused unless the entry pool has run dry, and at the
      end the managed memory is still the disjoint union of what is free and what is held. */
  method Serve(pm: PhysicalMemoryManager, requests: seq<Request>, ghost managed: seq<Range>) returns (held: seq<Range>)
    requires pm.Valid() && managed != [] && Ledger(managed, pm.ranges, []) && pm.memorySize == Total(managed)
    modifies pm, pm.freeList, pm.nodes
    ensures pm.Valid() && pm.nodes == old(pm.nodes)
    ensures Ledger(managed, pm.ranges, held) && pm.memorySize == Total(managed)
    ensures pm.freeMemorySize == Total(pm.ranges)
  {
    hide Ledger;
    hide PhysicalMemoryManager.Core;
    held := [];
    for n := 0 to |requests|
      invariant pm.Valid() && pm.nodes == old(pm.nodes)
      invariant Ledger(managed, pm.ranges, held) && pm.memorySize == Total(managed)
    {
      match requests[n] {
        case Get(pages, order) =>
          held := GetBlock(pm, pages, order, held, managed);
        case PutBack(k) =>
          if k < |held| {
            held := PutBlock(pm, k, held, managed);
          }
      }
    }
  }

  method GetBlock(pm: PhysicalMemoryManager, pages: nat, alignOrder: nat, held: seq<Range>, ghost managed: seq<Range>)
    returns (held': seq<Range>)
    requires pm.Valid() && Ledger(managed, pm.ranges, held) && pm.memorySize == Total(managed)
    modifies pm, pm.freeList, pm.nodes
    ensures pm.Valid() && pm.nodes == old(pm.nodes)
    ensures Ledger(managed, pm.ranges, held') && pm.memorySize == Total(managed)
    ensures held' == held || exists r :: held' == held + [r]
  {
    hide Coalesced, Total, CanHold, Pow2, Aligned, CleanFits, Carve, FirstAligned;
    hide PhysicalMemoryManager.Core;
    ghost var was := pm.ranges;
    PagesFitCleanly(was, pages * PAGE_SIZE, alignOrder);
    var r;
    ghost var i;
    r, i := pm.Alloc(pages * PAGE_SIZE, alignOrder);
    if r.Ok? {
      var s, e := r.value, EndAddress(r.value, pages * PAGE_SIZE);
      FirstAlignedPage(was[i], alignOrder);
      LedgerTake(managed, was, held, i, s, e);
      held' := held + [Range(s, e)];
    } else {
      held' := held;
    }
  }

  method PutBlock(pm: PhysicalMemoryManager, k: nat, held: seq<Range>, ghost managed: seq<Range>)
    returns (held': seq<Range>)
    requires pm.Valid() && Ledger(managed, pm.ranges, held) && pm.memorySize == Total(managed) && managed != [] &&
      k < |held|
    modifies pm, pm.freeList, pm.nodes
    ensures pm.Valid() && pm.nodes == old(pm.nodes)
    ensures Ledger(managed, pm.ranges, held') && pm.memorySize == Total(managed)
    ensures held' == Dropped(held, k) || (held' == held && old(pm.pool) == [])
  {
    hide Coalesced, Total, Merge, Dropped, FreeEffect;
    hide PhysicalMemoryManager.Core;
    ghost var was := pm.ranges;
    ghost var i := PutPlan(pm, k, held, managed);
    var err := pm.Free(held[k].start, held[k].Size(), false);
    if err == None {
      LedgerGive(managed, was, held, k, i);
      held' := held[..k] + held[k + 1..];
      assert held' == Dropped(held, k) by { DroppedAt(held, k); }
    } else {
      held' := held;
    }
  }

  lemma PutPlan(pm: PhysicalMemoryManager, k: nat, held: seq<Range>, managed: seq<Range>) returns (i: nat)
    requires pm.Valid() && Ledger(managed, pm.ranges, held) && pm.memorySize == Total(managed) && managed != [] &&
      k < |held|
    ensures var s, e := held[k].start, held[k].end;
      && WholePages(s, e) && pm.memorySize > 0 && pm.ranges != [] && Slot(pm.ranges, i, s, e)
      && CanFree(pm.ranges, s, e) && WideAfter(pm.ranges, s, e)
      && FreeEffect(pm.ranges, s, e) == Freed(Merge(pm.ranges, i, s, e), SizeOf(s, e))
      && pm.freeMemorySize + SizeOf(s, e) <= pm.memorySize
  {
    hide Total;
    hide PhysicalMemoryManager.Core;
    TotalPositive(managed);
    HeldPages(held, k);
    pm.BooksNonEmpty();
    var s, e := held[k].start, held[k].end;
    i := SlotOf(pm.ranges, s, e);
    SlotFaithful(pm.ranges, i, s, e);
    MergeCoalesced(pm.ranges, i, s, e);
    LegalFreeAccepted(managed, pm.ranges, held, k);
  }

  // ---------------------------------------------------------------- boot and refill

  /** Boot-time `free` of disjoint page-multiple regions, with the initializing flag set: what the manager then counts
      as its memory is exactly what is free, so `Serve` can start from there. A region is left out only if its entry
      does not fit in the pool. */
  method Boot(pm: PhysicalMemoryManager, regions: seq<Range>) returns (taken: seq<Range>)
    requires pm.Valid() && pm.memorySize == 0 && pm.ranges == []
    requires PageMultiple(regions)
    requires forall j, k :: 0 <= j < k < |regions| ==> regions[j].Misses(regions[k].start, regions[k].end)
    modifies pm, pm.freeList, pm.nodes
    ensures pm.Valid() && pm.memorySize == pm.freeMemorySize == Total(pm.ranges)
    ensures PageMultiple(pm.ranges) && forall x :: Covered(pm.ranges, x) <==> Covered(taken, x)
    ensures (forall k :: 0 <= k < |taken| ==> taken[k] in regions) && (|old(pm.pool)| >= |regions| ==> taken == regions)
    ensures old(pm.pool) != [] && regions != [] ==> taken != []
    ensures taken != [] ==> Ledger(pm.ranges, pm.ranges, [])
  {
    hide Total, Merge, FreeEffect;
    hide PhysicalMemoryManager.Core;
    taken := [];
    TotalPositive(pm.ranges);
    for n := 0 to |regions|
      invariant pm.Valid() && pm.nodes == old(pm.nodes) && pm.memorySize == pm.freeMemorySize
      invariant |pm.pool| >= |old(pm.pool)| - n && (|old(pm.pool)| >= n ==> taken == regions[..n]) &&
        (taken == [] ==> pm.pool == old(pm.pool))
      invariant forall k :: 0 <= k < |taken| ==> taken[k] in regions[..n]
      invariant n > 0 && old(pm.pool) != [] ==> taken != []
      invariant PageMultiple(pm.ranges) && forall x :: Covered(pm.ranges, x) <==> Covered(taken, x)
    {
      assert regions[..n + 1] == regions[..n] + [regions[n]];
      var ok := BootStep(pm, regions[n], taken);
      if ok {
        taken := taken + [regions[n]];
      }
    }
    assert regions[..|regions|] == regions;
  }

  method BootStep(pm: PhysicalMemoryManager, r: Range, ghost done: seq<Range>) returns (ok: bool)
    requires pm.Valid() && pm.memorySize == pm.freeMemorySize
    requires PageMultiple(pm.ranges) && WholePages(r.start, r.end)
    requires forall x :: Covered(pm.ranges, x) <==> Covered(done, x)
    requires forall k :: 0 <= k < |done| ==> done[k].Misses(r.start, r.end)
    modifies pm, pm.freeList, pm.nodes
    ensures pm.Valid() && pm.nodes == old(pm.nodes) && pm.memorySize == pm.freeMemorySize
    ensures |pm.pool| >= |old(pm.pool)| - 1 && PageMultiple(pm.ranges)
    ensures !ok ==> old(pm.pool) == [] && pm.pool == [] && pm.ranges == old(pm.ranges)
    ensures ok ==> forall x :: Covered(pm.ranges, x) <==> Covered(done + [r], x)
  {
    hide Total, Merge, FreeEffect, Coalesced;
    hide PhysicalMemoryManager.Core;
    ghost var was := pm.ranges;
    ghost var i := BootPlan(pm, r, done);
    var err := pm.Free(r.start, r.Size(), true);
    ok := err == None;
    if ok {
      TotalPositive(pm.ranges);
      forall x ensures Covered(pm.ranges, x) <==> Covered(done + [r], x) {
        CoveredConcat(done, [r], x);
        CoveredOne(r, x);
        if was != [] { MergeCovered(was, i, r.start, r.end, x); }
      }
    }
  }

  lemma BootPlan(pm: PhysicalMemoryManager, r: Range, done: seq<Range>) returns (i: nat)
    requires pm.Valid() && pm.memorySize == pm.freeMemorySize
    requires PageMultiple(pm.ranges) && WholePages(r.start, r.end)
    requires forall x :: Covered(pm.ranges, x) <==> Covered(done, x)
    requires forall k :: 0 <= k < |done| ==> done[k].Misses(r.start, r.end)
    ensures pm.memorySize == 0 <==> pm.ranges == []
    ensures pm.ranges != [] ==>
      && CanFree(pm.ranges, r.start, r.end) && WideAfter(pm.ranges, r.start, r.end)
      && Slot(pm.ranges, i, r.start, r.end)
      && FreeEffect(pm.ranges, r.start, r.end) == Freed(Merge(pm.ranges, i, r.start, r.end), r.Size())
      && |Merge(pm.ranges, i, r.start, r.end)| <= |pm.ranges| + 1
      && PageMultiple(Merge(pm.ranges, i, r.start, r.end))
  {
    hide Total;
    hide PhysicalMemoryManager.Core;
    pm.RangeCount();
    i := 0;
    if pm.ranges != [] {
      forall x | r.start <= x <= r.end ensures !Covered(pm.ranges, x) {}
      DisjointBytes(pm.ranges, r.start, r.end);
      i := SlotOf(pm.ranges, r.start, r.end);
      SlotFaithful(pm.ranges, i, r.start, r.end);
      MergeCoalesced(pm.ranges, i, r.start, r.end);
      MergePageMultiple(pm.ranges, i, r.start, r.end);
      MergeCases(pm.ranges, i, r.start, r.end);
    }
  }

  /** Every entry of whole pages holds an unaligned page. */
  lemma PageAlwaysFits(rs: seq<Range>)
    requires PageMultiple(rs)
    ensures forall i :: 0 <= i < |rs| ==> CanHold(rs[i], PAGE_SIZE, 0) && FirstAligned(rs[i], 0) == rs[i].start
  {
    forall i | 0 <= i < |rs| ensures CanHold(rs[i], PAGE_SIZE, 0) && FirstAligned(rs[i], 0) == rs[i].start {
      assert WholePages(rs[i].start, rs[i].end);
      FirstAlignedAtStart(rs[i]);
      var x: nat := rs[i].start;
      assert Aligned(x, Pow2(0)) && EndAddress(x, PAGE_SIZE) <= rs[i].end;
    }
  }

  lemma ErrorCases(r: Result<int>)
    ensures r.Ok? || r == Err(InvalidSize) || r == Err(InvalidAddress) || r == Err(AddressNotAvailable) ||
      r == Err(EntryPoolRunOut)
  {
    match r
    case Ok(_) =>
    case Err(error) => assert error.InvalidSize? || error.InvalidAddress? || error.AddressNotAvailable? ||
      error.EntryPoolRunOut?;
  }

  /** Exactly the bytes `s..e`, which were free, are not free any more. */
  ghost predicate TookBytes(rs: seq<Range>, rs': seq<Range>, s: int, e: int) {
    && (forall x :: s <= x <= e ==> Covered(rs, x))
    && (forall x :: Covered(rs', x) <==> Covered(rs, x) && !(s <= x <= e))
  }

  lemma CarveTookBytes(rs: seq<Range>, i: nat, s: int, e: int)
    requires Coalesced(rs) && i < |rs| && s <= e && rs[i].Contains(s, e)
    ensures TookBytes(rs, Carve(rs, i, s, e), s, e)
  {
    hide Carve, Coalesced;
    forall x ensures Covered(Carve(rs, i, s, e), x) <==> Covered(rs, x) && !(s <= x <= e) {
      CarveCovered(rs, i, s, e, x);
    }
  }

  /** add_physical_memory_manager_pool: the page at `page`, from the manager itself, becomes `perPage` new entries.
      Its unaligned allocation takes the front of an entry, so the `expect` on it never fails. */
  method AddPhysicalMemoryManagerPool(pm: PhysicalMemoryManager, perPage: nat) returns (page: int)
    requires pm.Valid() && PageMultiple(pm.ranges) && pm.freeMemorySize > PAGE_SIZE
    modifies pm, pm.freeList, pm.nodes
    ensures pm.Valid() && PageMultiple(pm.ranges) && |pm.pool| >= |old(pm.pool)| + perPage
    ensures pm.freeMemorySize == old(pm.freeMemorySize) - PAGE_SIZE && pm.memorySize == old(pm.memorySize)
    ensures page >= 0 && page % PAGE_SIZE == 0 &&
      TookBytes(old(pm.ranges), pm.ranges, page, EndAddress(page, PAGE_SIZE))
    ensures fresh(pm.nodes - old(pm.nodes))
  {
    hide Total, Coalesced, CanHold, Pow2, Aligned, CleanFits, Carve, FirstAligned, TookBytes;
    hide PhysicalMemoryManager.Core;
    ghost var was := pm.ranges;
    PagesFitCleanly(was, PAGE_SIZE, 0);
    PageAlwaysFits(was);
    pm.BooksNonEmpty();
    assert CanHold(was[0], PAGE_SIZE, 0);
    var r;
    ghost var i;
    r, i := pm.Alloc(PAGE_SIZE, 0);
    assert i < |was| ==> CanHold(was[i], PAGE_SIZE, 0);
    ErrorCases(r);
    assert r.Ok?;
    page := r.value;
    var e := EndAddress(page, PAGE_SIZE);
    FirstAlignedPage(was[i], 0);
    CarvePageMultiple(was, i, page, e);
    CarveShrinks(was, i, page, e);
    CarveTookBytes(was, i, page, e);
    pm.AddMemoryEntryPool(perPage);
  }

  /** Taking the front of an entry needs no new entry. */
  lemma CarveShrinks(rs: seq<Range>, i: nat, s: int, e: int)
    requires i < |rs| && rs[i].start == s && rs[i].Contains(s, e)
    ensures |Carve(rs, i, s, e)| <= |rs|
  {
  }

  /** The answer of `alloc` for a free list of whole pages whose entry pool has an entry. */
  ghost predicate AllocAnswer(rs: seq<Range>, free: int, size: nat, alignOrder: nat, r: Result<int>) {
    && (r == Err(InvalidSize) <==> size == 0 || free <= size)
    && (r == Err(AddressNotAvailable) <==> 0 < size < free && NoneCanHold(rs, size, alignOrder))
    && (r.Err? ==> r.error.InvalidSize? || r.error.AddressNotAvailable?)
  }

  ghost predicate NoneCanHold(rs: seq<Range>, size: nat, alignOrder: nat) {
    forall j :: 0 <= j < |rs| ==> !CanHold(rs[j], size, alignOrder)
  }

  /** What a call of allocate_physical_memory took: a block, if it succeeded, and before it the page of a refill, which
      leaves `mid` free. */
  ghost predicate Allocated(rs: seq<Range>, mid: seq<Range>, rs': seq<Range>, page: Option<int>, size: nat,
                            r: Result<int>) {
    && (if page.Some? then TookBytes(rs, mid, page.value, EndAddress(page.value, PAGE_SIZE)) else mid == rs)
    && (if r.Ok? then TookBytes(mid, rs', r.value, EndAddress(r.value, size)) else rs' == mid)
  }

  /** allocate_physical_memory: it fails only as `alloc` would with an entry in the pool, and an error takes nothing but
      the page of a refill. That happens only with an empty pool, for a block that `alloc` would have had to split off,
      so never for an alignment of a page or less. After one refill the retry cannot run out again. */
  method AllocatePhysicalMemory(pm: PhysicalMemoryManager, size: nat, alignOrder: nat, perPage: nat)
    returns (r: Result<int>, ghost page: Option<int>, ghost mid: seq<Range>)
    requires pm.Valid() && PageMultiple(pm.ranges) && size % PAGE_SIZE == 0 && perPage > 0
    modifies pm, pm.freeList, pm.nodes
    ensures pm.Valid() && PageMultiple(pm.ranges) && fresh(pm.nodes - old(pm.nodes))
    ensures pm.memorySize == old(pm.memorySize)
    ensures Allocated(old(pm.ranges), mid, pm.ranges, page, size, r)
    ensures page.Some? ==>
      && old(pm.pool) == [] && alignOrder > PAGE_SHIFT
      && 0 < size < old(pm.freeMemorySize) && !NoneCanHold(old(pm.ranges), size, alignOrder)
    ensures var free := old(pm.freeMemorySize) - (if page.Some? then PAGE_SIZE else 0);
      && AllocAnswer(mid, free, size, alignOrder, r)
      && pm.freeMemorySize == free - (if r.Ok? then size else 0)
    ensures r.Ok? ==> r.value >= 0 && Aligned(r.value, Pow2(alignOrder))
    decreases if pm.pool == [] then 1 else 0
  {
    hide Total, CanHold, Pow2, Aligned, CleanFits, Carve, FirstAligned, Coalesced, TookBytes, NoneCanHold;
    hide PhysicalMemoryManager.Core;
    page, mid := None, pm.ranges;
    PagesFitCleanly(mid, size, alignOrder);
    ghost var i;
    r, i := pm.Alloc(size, alignOrder);
    ErrorCases(r);
    NoneOrSome(mid, size, alignOrder);
    if r == Err(EntryPoolRunOut) {
      FirstAlignedPage(mid[i], alignOrder);
      var p := AddPhysicalMemoryManagerPool(pm, perPage);
      ghost var none;
      r, none, mid := AllocatePhysicalMemory(pm, size, alignOrder, perPage);
      page := Some(p);
    } else if r.Ok? {
      FirstAlignedPage(mid[i], alignOrder);
      CarvePageMultiple(mid, i, r.value, EndAddress(r.value, size));
      CarveTookBytes(mid, i, r.value, EndAddress(r.value, size));
    }
  }

  lemma NoneOrSome(rs: seq<Range>, size: nat, alignOrder: nat)
    ensures NoneCanHold(rs, size, alignOrder) <==> forall j :: 0 <= j < |rs| ==> !CanHold(rs[j], size, alignOrder)
  {
    hide CanHold;
  }
}
