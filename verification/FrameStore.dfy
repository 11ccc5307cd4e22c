/** The physical memory manager (src/kernel/memory_manager/physical_memory_manager.rs) as the store of page frames that
    the page manager
    and the address space draw on: its calls do to the free frames what those modules take them to do. */
module FrameStore {
  import opened Collections
  import opened DataType
  import opened Ranges
  import opened FreeCondition
  import opened Alignment
  import opened PhysicalMemory
  import PhysicalRuns
  import opened Frames
  import AddressSpace

  /** The frames `b .. b + count - 1` are free. */
  ghost predicate RunFree(rs: seq<Range>, b: nat, count: nat) {
    forall f: nat :: AddressSpace.InBlock(b, count, f) ==> FrameFree(rs, f)
  }

  /** Where a run of frames is free, an entry holds it. */
  lemma RunFits(rs: seq<Range>, b: nat, count: nat) returns (i: nat)
    requires Coalesced(rs) && count > 0 && RunFree(rs, b, count)
    ensures i < |rs| && CanHold(rs[i], count * PAGE_SIZE, PAGE_SHIFT)
  {
    hide Pow2, Coalesced;
    var s, e := b * PAGE_SIZE, (b + count) * PAGE_SIZE - 1;
    forall x | s <= x <= e ensures Covered(rs, x) {
      var f: nat := x / PAGE_SIZE;
      assert AddressSpace.InBlock(b, count, f);
      assert Within(x, f * 4096, f * 4096 + 4095);
    }
    AllInOne(rs, s, e);
    i :| i < |rs| && rs[i].Contains(s, e);
    PageIsPow2();
    assert Aligned(s, Pow2(PAGE_SHIFT)) && EndAddress(s, count * PAGE_SIZE) <= rs[i].end;
  }

  // ---------------------------------------------------------------- bytes and frames

  /** The free frames below `bound`. */
  ghost function FreeFrames(rs: seq<Range>, bound: nat): set<nat> { set f: nat | f < bound && FrameFree(rs, f) }

  ghost function FrameRun(a: nat, b: nat): (s: set<nat>)
    ensures forall f: nat :: f in s <==> a <= f < b
    ensures a <= b ==> |s| == b - a
    decreases b
  {
    if a < b then FrameRun(a, b - 1) + {b - 1} else {}
  }

  /** The entries lie below frame `bound`. */
  ghost predicate Below(rs: seq<Range>, bound: nat) { forall i :: 0 <= i < |rs| ==> rs[i].end < bound * PAGE_SIZE }

  /** One entry more, above the others, is as many frames more. */
  lemma FrameOfLast(rs: seq<Range>, r: Range, a: nat, b: nat, f: nat)
    requires r.start == a * PAGE_SIZE && r.end == b * PAGE_SIZE - 1 && a < b && forall x :: Covered(rs, x) ==>
      x < r.start
    ensures FrameFree(rs + [r], f) <==> FrameFree(rs, f) || a <= f < b
    ensures FrameFree(rs, f) ==> f < a
  {
    hide Covered;
    forall x: int | Within(x, f * 4096, f * 4096 + 4095)
      ensures Covered(rs + [r], x) <==> Covered(rs, x) || a <= f < b
    {
      CoveredConcat(rs, [r], x);
      CoveredOne(r, x);
    }
    var x: int := f * 4096;
    assert Within(x, f * 4096, f * 4096 + 4095);
    assert FrameFree(rs, f) ==> Covered(rs, x);
  }

  lemma LastFrames(rs: seq<Range>, r: Range, a: nat, b: nat, bound: nat)
    requires r.start == a * PAGE_SIZE && r.end == b * PAGE_SIZE - 1 && a < b <= bound && forall x :: Covered(rs, x) ==>
      x < r.start
    ensures |FreeFrames(rs + [r], bound)| == |FreeFrames(rs, bound)| + (b - a)
  {
    hide Covered, FrameFree, FrameRun;
    forall f: nat
      ensures FrameFree(rs + [r], f) <==> FrameFree(rs, f) || a <= f < b
      ensures FrameFree(rs, f) ==> f < a
    {
      FrameOfLast(rs, r, a, b, f);
    }
    assert FreeFrames(rs + [r], bound) == FreeFrames(rs, bound) + FrameRun(a, b);
    assert FreeFrames(rs, bound) !! FrameRun(a, b);
  }

  /** In a list of whole pages the free bytes are those of the free frames. */
  lemma {:induction false} BytesAreFrames(rs: seq<Range>, bound: nat)
    requires Coalesced(rs) && PageMultiple(rs) && Below(rs, bound)
    ensures Total(rs) == PAGE_SIZE * |FreeFrames(rs, bound)|
    decreases |rs|
  {
    hide Coalesced, Covered, FreeFrames, Total, PageMultiple, Below;
    if rs == [] {
      NoFrames(bound);
    } else {
      var n, a, b := |rs| - 1, rs[|rs| - 1].start / PAGE_SIZE, (rs[|rs| - 1].end + 1) / PAGE_SIZE;
      LastEntry(rs, bound);
      BytesAreFrames(rs[..n], bound);
      LastFrames(rs[..n], rs[n], a, b, bound);
      TotalPrefix(rs, n + 1);
      assert rs[..n + 1] == rs;
    }
  }

  lemma NoFrames(bound: nat)
    ensures FreeFrames([], bound) == {} && Total([]) == 0
  {
    forall f: nat ensures !FrameFree([], f) {
      var x: int := f * 4096;
      assert Within(x, f * 4096, f * 4096 + 4095);
      assert !Covered([], x);
    }
  }

  lemma LastEntry(rs: seq<Range>, bound: nat)
    requires Coalesced(rs) && PageMultiple(rs) && Below(rs, bound) && rs != []
    ensures var n := |rs| - 1;
      && Coalesced(rs[..n]) && PageMultiple(rs[..n]) && Below(rs[..n], bound) && rs == rs[..n] + [rs[n]]
      && (forall x :: Covered(rs[..n], x) ==> x < rs[n].start) && WholePages(rs[n].start, rs[n].end)
      && rs[n].start == (rs[n].start / PAGE_SIZE) * PAGE_SIZE
      && rs[n].end == ((rs[n].end + 1) / PAGE_SIZE) * PAGE_SIZE - 1
      && 0 <= rs[n].start / PAGE_SIZE < (rs[n].end + 1) / PAGE_SIZE <= bound
  {
  }

  /** The counter of the manager compares with a number of pages as the number of free frames does. */
  lemma CounterIsFrames(pm: PhysicalMemoryManager, bound: nat, count: nat)
    requires pm.Valid() && PageMultiple(pm.ranges) && Below(pm.ranges, bound)
    ensures pm.freeMemorySize == PAGE_SIZE * |FreeFrames(pm.ranges, bound)|
    ensures pm.freeMemorySize <= count * PAGE_SIZE <==> |FreeFrames(pm.ranges, bound)| <= count
  {
    hide PhysicalMemoryManager.Core;
    hide Coalesced, FreeFrames, Total;
    BytesAreFrames(pm.ranges, bound);
  }

  /** alloc of `count` pages at page alignment: a run of free frames leaves, unless there is none or it would be all
      that is free; the pool of entries is not needed. */
  method TakeFrames(pm: PhysicalMemoryManager, count: nat) returns (r: Option<nat>)
    requires pm.Valid() && PageMultiple(pm.ranges) && count > 0
    modifies pm, pm.freeList, pm.nodes
    ensures pm.Valid() && PageMultiple(pm.ranges) && pm.nodes == old(pm.nodes) && pm.memorySize == old(pm.memorySize)
    ensures r.None? <==> old(pm.freeMemorySize) <= count * PAGE_SIZE || forall b: nat ::
      !RunFree(old(pm.ranges), b, count)
    ensures r.None? ==> pm.ranges == old(pm.ranges)
    ensures r.Some? ==>
      && RunFree(old(pm.ranges), r.value, count)
      && (forall f: nat :: FrameFree(pm.ranges, f) <==>
        FrameFree(old(pm.ranges), f) && !AddressSpace.InBlock(r.value, count, f))
      && pm.freeMemorySize == old(pm.freeMemorySize) - count * PAGE_SIZE
  {
    hide PhysicalMemoryManager.Core;
    hide Coalesced, Total, CanHold, Pow2, Aligned, CleanFits, Carve, FirstAligned, FrameFree, RunFree;
    ghost var was := pm.ranges;
    PagesFitCleanly(was, count * PAGE_SIZE, PAGE_SHIFT);
    if b: nat :| RunFree(was, b, count) { var _ := RunFits(was, b, count); }
    var a;
    ghost var i;
    a, i := pm.Alloc(count * PAGE_SIZE, PAGE_SHIFT);
    if a.Ok? {
      r := Some(a.value / PAGE_SIZE);
      FirstAlignedPage(was[i], PAGE_SHIFT);
      Carved(was, i, a.value / PAGE_SIZE, count);
    } else {
      if i < |was| { FirstAlignedPage(was[i], PAGE_SHIFT); }
      Refused(was, count, pm.freeMemorySize, a, i);
      r := None;
    }
  }

  lemma Carved(rs: seq<Range>, i: nat, b: nat, count: nat)
    requires Coalesced(rs) && PageMultiple(rs) && i < |rs| && count > 0 &&
      rs[i].Contains(b * 4096, (b + count) * 4096 - 1)
    ensures var rs' := Carve(rs, i, b * 4096, (b + count) * 4096 - 1);
      && PageMultiple(rs') && RunFree(rs, b, count)
      && (forall f: nat :: FrameFree(rs', f) <==> FrameFree(rs, f) && !AddressSpace.InBlock(b, count, f))
  {
    hide Carve, Coalesced;
    CarvePageMultiple(rs, i, b * 4096, (b + count) * 4096 - 1);
    forall f: nat
      ensures FrameFree(Carve(rs, i, b * 4096, (b + count) * 4096 - 1), f) <==>
        FrameFree(rs, f) && !AddressSpace.InBlock(b, count, f)
    {
      CarvedFrames(rs, i, b, count, f);
    }
  }

  /** Why alloc refuses pages at page alignment. */
  lemma Refused(rs: seq<Range>, count: nat, free: int, a: Result<int>, i: nat)
    requires Coalesced(rs) && count > 0 && a.Err? && a != Err(InvalidAddress)
    requires a == Err(InvalidSize) ==> free <= count * PAGE_SIZE
    requires a == Err(AddressNotAvailable) ==> forall j :: 0 <= j < |rs| ==>
      !CanHold(rs[j], count * PAGE_SIZE, PAGE_SHIFT)
    requires a != Err(EntryPoolRunOut)
    ensures free <= count * PAGE_SIZE || forall b: nat :: !RunFree(rs, b, count)
  {
    hide Coalesced, CanHold, RunFree;
    PhysicalRuns.ErrorCases(a);
    forall b: nat | RunFree(rs, b, count) ensures free <= count * PAGE_SIZE {
      var j := RunFits(rs, b, count);
    }
  }

  /** free of a run of frames of which none is free: they are free again, unless a new entry was needed and there was
      none or the books had no room. */
  method GiveFrames(pm: PhysicalMemoryManager, b: nat, count: nat) returns (taken: bool)
    requires pm.Valid() && PageMultiple(pm.ranges) && pm.memorySize > 0 && count > 0
    requires forall f: nat :: AddressSpace.InBlock(b, count, f) ==> NoByteFree(pm.ranges, f)
    modifies pm, pm.freeList, pm.nodes
    ensures pm.Valid() && PageMultiple(pm.ranges) && pm.nodes == old(pm.nodes) && pm.memorySize == old(pm.memorySize)
    ensures !taken ==>
      pm.ranges == old(pm.ranges) &&
      (old(pm.pool) == [] || old(pm.memorySize) < old(pm.freeMemorySize) + count * PAGE_SIZE)
    ensures taken ==>
      && (forall f: nat :: FrameFree(pm.ranges, f) <==>
        FrameFree(old(pm.ranges), f) || AddressSpace.InBlock(b, count, f))
      && pm.freeMemorySize == old(pm.freeMemorySize) + count * PAGE_SIZE
  {
    hide PhysicalMemoryManager.Core;
    hide Coalesced, Total, Merge, FreeEffect, FrameFree, NoByteFree;
    ghost var was := pm.ranges;
    pm.BooksNonEmpty();
    ghost var i := GivePlan(was, b, count);
    var err := pm.Free(b * PAGE_SIZE, count * PAGE_SIZE, false);
    taken := err == None;
  }

  /** No byte of the frame is free. */
  ghost predicate NoByteFree(rs: seq<Range>, f: nat) {
    forall x: int :: Within(x, f * 4096, f * 4096 + 4095) ==> !Covered(rs, x)
  }

  lemma RunDisjoint(rs: seq<Range>, b: nat, count: nat)
    requires PageMultiple(rs) && count > 0 && forall f: nat :: AddressSpace.InBlock(b, count, f) ==> NoByteFree(rs, f)
    ensures Disjoint(rs, b * 4096, (b + count) * 4096 - 1)
  {
    hide Covered, Disjoint;
    var s, e := b * 4096, (b + count) * 4096 - 1;
    forall x | s <= x <= e ensures !Covered(rs, x) {
      var f: nat := x / 4096;
      assert AddressSpace.InBlock(b, count, f);
      assert Within(x, f * 4096, f * 4096 + 4095);
    }
    assert NonNegative(rs) by { assert forall k :: 0 <= k < |rs| ==> WholePages(rs[k].start, rs[k].end); }
    PhysicalRuns.DisjointBytes(rs, s, e);
  }

  lemma GivePlan(rs: seq<Range>, b: nat, count: nat) returns (i: nat)
    requires Coalesced(rs) && rs != [] && PageMultiple(rs) && count > 0
    requires forall f: nat :: AddressSpace.InBlock(b, count, f) ==> NoByteFree(rs, f)
    ensures i <= |rs|
    ensures var s, e := b * 4096, (b + count) * 4096 - 1;
      && CanFree(rs, s, e) && WideAfter(rs, s, e)
      && FreeEffect(rs, s, e) == Freed(Merge(rs, i, s, e), count * PAGE_SIZE)
      && PageMultiple(Merge(rs, i, s, e))
      && (forall f: nat :: FrameFree(Merge(rs, i, s, e), f) <==> FrameFree(rs, f) || AddressSpace.InBlock(b, count, f))
  {
    hide Coalesced, Merge, FreeEffect, FrameFree, NoByteFree, PageMultiple, Disjoint, Wide, Slot, AddressSpace.InBlock;
    RunDisjoint(rs, b, count);
    var s, e := b * 4096, (b + count) * 4096 - 1;
    i := SlotOf(rs, s, e);
    assert i <= |rs| by { SlotBound(rs, i, s, e); }
    SlotFaithful(rs, i, s, e);
    MergePageMultiple(rs, i, s, e);
    WideMerge(rs, i, s, e);
    forall f: nat ensures FrameFree(Merge(rs, i, s, e), f) <==> FrameFree(rs, f) || AddressSpace.InBlock(b, count, f) {
      MergedFrames(rs, i, b, count, f);
    }
  }

  lemma SlotBound(rs: seq<Range>, i: nat, s: int, e: int)
    requires Slot(rs, i, s, e)
    ensures i <= |rs|
  {
  }

  lemma WideMerge(rs: seq<Range>, i: nat, s: int, e: int)
    requires i <= |rs| && PageMultiple(Merge(rs, i, s, e))
    ensures Wide(Merge(rs, i, s, e))
  {
    hide Merge;
    var out := Merge(rs, i, s, e);
    assert forall k :: 0 <= k < |out| ==> WholePages(out[k].start, out[k].end);
  }
}
