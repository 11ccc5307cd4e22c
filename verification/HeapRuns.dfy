/** Runs of the physical memory manager (src/kernel/memory_manager/physical_memory_manager.rs) on its heap: whatever
    sequence of frees,
    allocations and reservations of whole pages is made, the free list covers what plain set operations give. */
module HeapRuns {
  import opened Collections
  import opened DataType
  import opened Ranges
  import opened FreeCondition
  import opened Alignment
  import opened PhysicalMemory
  import opened PhysicalRuns

  /** `Feed` is a free with the initializing flag, as at boot time. */
  datatype Call = Feed(page: nat, pages: nat) | Fetch(pages: nat, order: nat) | Reserve(start: nat,
    size: nat) | Return(page: nat, pages: nat)

  /** The effect of a call is nothing or that of its own block. */
  ghost predicate Answers(call: Call, event: Event) {
    match event
    case Nothing => true
    case Gave(s, e) =>
      && (call.Feed? || call.Return?) && call.pages > 0
      && s == call.page * PAGE_SIZE && e == (call.page + call.pages) * PAGE_SIZE - 1
    case Took(s, e) =>
      match call
      case Fetch(pages, order) => pages > 0 && s >= 0 && Aligned(s, Pow2(order)) &&
        e == EndAddress(s, pages * PAGE_SIZE)
      case Reserve(start, size) => size > 0 && var (x, n) := AlignBlock(start, size, PAGE_SHIFT);
        s == x && e == EndAddress(x, n)
      case _ => false
  }

  /** `NotMade`: the caller did not make a call that the manager gets wrong. */
  datatype Answer = Served | Refused(error: MemoryError) | NotMade

  /** What a call finds: the free list, whether the entry pool is empty, and the memory under management. */
  datatype Before = Before(ranges: seq<Range>, poolEmpty: bool, memory: int)

  /** Why a call had no effect. */
  ghost predicate Because(call: Call, b: Before, answer: Answer) {
    match answer
    case Served => true
    case NotMade =>
      if call.Fetch? then false
      else if call.Reserve? then
        && 0 < call.size <= Total(b.ranges)
        && var (x, n) := AlignBlock(call.start, call.size, PAGE_SHIFT); !Takable(b.ranges, x, EndAddress(x, n))
      else call.pages == 0 || !CanFree(b.ranges, call.page * PAGE_SIZE, (call.page + call.pages) * PAGE_SIZE - 1)
    case Refused(error) =>
      if call.Fetch? then
        || (error.InvalidSize? && (call.pages == 0 || Total(b.ranges) <= call.pages * PAGE_SIZE))
        || (error.AddressNotAvailable? && NoneCanHold(b.ranges, call.pages * PAGE_SIZE, call.order))
        || (error.EntryPoolRunOut? && b.poolEmpty)
      else if call.Reserve? then
        || (error.InvalidSize? && !(0 < call.size <= Total(b.ranges)))
        || (0 < call.size && var (x, n) := AlignBlock(call.start, call.size, PAGE_SHIFT);
            Refusal(b.ranges, b.poolEmpty, Total(b.ranges), x, n) == Some(error))
      else
        || (error.InvalidSize? && call.Return? && b.memory < Total(b.ranges) + call.pages * PAGE_SIZE)
        || (error.InvalidAddress? && Inside(b.ranges, call.page * PAGE_SIZE, (call.page + call.pages) * PAGE_SIZE - 1))
        || (error.EntryPoolRunOut? && b.poolEmpty)
  }

  ghost function Found(pm: PhysicalMemoryManager): Before
    reads pm
  {
    Before(pm.ranges, pm.pool == [], pm.memorySize)
  }

  // ---------------------------------------------------------------- what a caller must know

  /** What the first `i` entries say about giving the block back. */
  ghost predicate Seen(rs: seq<Range>, i: nat, s: int, e: int, disjoint: bool, inside: bool, tail: bool)
    requires i <= |rs|
  {
    && (disjoint <==> forall j :: 0 <= j < i ==> rs[j].Misses(s, e))
    && (inside <==> exists j :: 0 <= j < i && rs[j].Contains(s, e))
    && (tail <==> EndsWithFirst(rs, s, e) || exists j: nat :: j < i && TailBeyond(rs, j, s, e))
  }

  lemma SeenNext(rs: seq<Range>, i: nat, s: int, e: int, disjoint: bool, inside: bool, tail: bool)
    requires i < |rs| && Seen(rs, i, s, e, disjoint, inside, tail)
    ensures Seen(rs, i + 1, s, e, disjoint && rs[i].Misses(s, e), inside || rs[i].Contains(s, e), tail ||
      TailBeyond(rs, i, s, e))
  {
    hide TailBeyond, EndsWithFirst;
  }

  lemma SeenAll(rs: seq<Range>, s: int, e: int, disjoint: bool, inside: bool, tail: bool)
    requires Seen(rs, |rs|, s, e, disjoint, inside, tail)
    ensures disjoint || inside || tail <==> CanFree(rs, s, e)
  {
    hide TailBeyond, EndsWithFirst;
    if i: nat :| TailBeyond(rs, i, s, e) { InList(rs, i, s, e); }
  }

  lemma InList(rs: seq<Range>, i: nat, s: int, e: int)
    requires TailBeyond(rs, i, s, e)
    ensures i < |rs|
  {
  }

  /** The walk along the entries that decides whether the block may be given back. */
  method MayFree(pm: PhysicalMemoryManager, s: int, e: int) returns (may: bool)
    requires pm.Valid() && pm.memorySize > 0 && s <= e
    ensures may <==> CanFree(pm.ranges, s, e)
  {
    hide PhysicalMemoryManager.Core;
    hide Seen, CanFree, Coalesced, Wide, Total;
    pm.BooksNonEmpty();
    pm.EntryFacts(0);
    ghost var rs := pm.ranges;
    var entry, first := pm.firstEntry, true;
    var disjoint, inside, tail := true, false, s < pm.firstEntry.start && e == pm.firstEntry.end;
    SeenNone(rs, s, e, tail);
    ghost var i: nat := 0;
    while entry != null
      invariant i <= |pm.entries| == |rs| && first == (i == 0) && entry == (if i < |rs| then pm.entries[i] else null)
      invariant Seen(rs, i, s, e, disjoint, inside, tail)
      decreases |rs| - i
    {
      pm.EntryFacts(i);
      SeenNext(rs, i, s, e, disjoint, inside, tail);
      var next := entry.next;
      if i + 1 < |rs| { pm.EntryFacts(i + 1); }
      disjoint := disjoint && (entry.end < s || e < entry.start);
      inside := inside || (entry.start <= s && e <= entry.end);
      tail := tail || (!first && entry.start <= s <= entry.end < e && (next == null || e < next.start));
      entry, first := next, false;
      i := i + 1;
    }
    SeenAll(rs, s, e, disjoint, inside, tail);
    may := disjoint || inside || tail;
  }

  lemma SeenNone(rs: seq<Range>, s: int, e: int, tail: bool)
    requires rs != [] && (tail <==> s < rs[0].start && e == rs[0].end)
    ensures Seen(rs, 0, s, e, true, false, tail)
  {
  }

  /** The walk that decides whether a block of whole pages may be reserved: the entry it starts in must hold it. */
  method MayReserve(pm: PhysicalMemoryManager, s: int, e: int) returns (may: bool)
    requires pm.Valid() && PageMultiple(pm.ranges) && WholePages(s, e) && pm.memorySize > 0
    ensures may <==> Takable(pm.ranges, s, e)
  {
    hide PhysicalMemoryManager.Core;
    pm.BooksNonEmpty();
    pm.EntryFacts(0);
    ghost var rs := pm.ranges;
    var entry := pm.firstEntry;
    ghost var i: nat := 0;
    while entry != null
      invariant i <= |pm.entries| == |rs| && entry == (if i < |rs| then pm.entries[i] else null)
      invariant forall j :: 0 <= j < i && rs[j].start <= s <= rs[j].end ==> rs[j].Contains(s, e)
      decreases |rs| - i
    {
      pm.EntryFacts(i);
      if entry.start <= s <= entry.end && entry.end < e {
        StraddlesEnd(rs, i, s, e);
        return false;
      }
      entry := entry.next;
      i := i + 1;
    }
    forall j | 0 <= j < |rs| && rs[j].start <= s <= rs[j].end ensures CleanCut(rs[j], s, e) {
      CarvePageMultiple(rs, j, s, e);
    }
    return true;
  }

  lemma StraddlesEnd(rs: seq<Range>, i: nat, s: int, e: int)
    requires PageMultiple(rs) && WholePages(s, e) && i < |rs| && rs[i].start <= s <= rs[i].end < e
    ensures !Takable(rs, s, e)
  {
    assert WholePages(rs[i].start, rs[i].end);
  }

  // ---------------------------------------------------------------- whole pages stay whole pages

  lemma FreeKeepsPages(rs: seq<Range>, s: int, e: int)
    requires Coalesced(rs) && rs != [] && PageMultiple(rs) && WholePages(s, e) && CanFree(rs, s, e)
    ensures WideAfter(rs, s, e) && (FreeEffect(rs, s, e).Freed? ==> PageMultiple(FreeEffect(rs, s, e).ranges))
  {
    hide Merge, Coalesced, Disjoint, Step;
    if Disjoint(rs, s, e) {
      SlotKeepsPages(rs, s, e);
    } else if Inside(rs, s, e) {
      var i :| 0 <= i < |rs| && rs[i].Contains(s, e);
      InsideFaithful(rs, i, s, e);
    } else {
      AgainPages(rs, s, e);
      AgainIsDisjoint(rs, s, e);
      SlotKeepsPages(rs, Step(rs, s, e).s, Step(rs, s, e).e);
    }
  }

  lemma SlotKeepsPages(rs: seq<Range>, s: int, e: int)
    requires Coalesced(rs) && rs != [] && PageMultiple(rs) && WholePages(s, e) && Disjoint(rs, s, e)
    ensures WideAfter(rs, s, e) && FreeEffect(rs, s, e).Freed? && PageMultiple(FreeEffect(rs, s, e).ranges)
  {
    hide Merge, FreeEffect;
    var i := SlotOf(rs, s, e);
    SlotFaithful(rs, i, s, e);
    MergePageMultiple(rs, i, s, e);
    assert forall k :: 0 <= k < |Merge(rs, i, s, e)| ==>
      WholePages(Merge(rs, i, s, e)[k].start, Merge(rs, i, s, e)[k].end);
  }

  /** The part that a free is repeated for is made of whole pages. */
  lemma AgainPages(rs: seq<Range>, s: int, e: int)
    requires Coalesced(rs) && rs != [] && PageMultiple(rs) && WholePages(s, e) && CanFree(rs, s, e) &&
      !Disjoint(rs, s, e) && !Inside(rs, s, e)
    ensures var a := Step(rs, s, e); a.Again? && WholePages(a.s, a.e) && a.e - a.s < e - s
  {
    hide Step;
    if i: nat :| TailBeyond(rs, i, s, e) {
      StepTail(rs, i, s, e);
      assert WholePages(rs[i].start, rs[i].end);
    } else {
      StepEndsWithFirst(rs, s, e);
      assert WholePages(rs[0].start, rs[0].end);
    }
  }

  // ---------------------------------------------------------------- one call

  /** A free, if the manager can take the block in. */
  method Give(pm: PhysicalMemoryManager, page: nat, pages: nat, isInitializing: bool)
    returns (answer: Answer, ghost event: Event)
    requires pm.Valid() && PageMultiple(pm.ranges)
    modifies pm, pm.freeList, pm.nodes
    ensures pm.Valid() && pm.nodes == old(pm.nodes) && PageMultiple(pm.ranges)
    ensures Next(old(pm.ranges), event, pm.ranges)
    ensures event == if answer.Served? then Gave(page * PAGE_SIZE, (page + pages) * PAGE_SIZE - 1) else Nothing
    ensures answer.Served? ==> pages > 0
    ensures Because(if isInitializing then Feed(page, pages) else Return(page, pages), old(Found(pm)), answer)
  {
    hide PhysicalMemoryManager.Core;
    hide Coalesced, CanFree, FreeEffect, Total, Inside;
    event := Nothing;
    if pages == 0 {
      return NotMade, event;
    }
    var s, e := page * PAGE_SIZE, (page + pages) * PAGE_SIZE - 1;
    pm.RangeCount();
    if pm.memorySize > 0 {
      pm.BooksNonEmpty();
      var may := MayFree(pm, s, e);
      if !may {
        return NotMade, event;
      }
      FreeKeepsPages(pm.ranges, s, e);
      FreedUnlessInside(pm.ranges, s, e);
    }
    var err := pm.Free(s, pages * PAGE_SIZE, isInitializing);
    if err == None {
      return Served, Gave(s, e);
    }
    return Refused(err.value), event;
  }

  /** A right free refuses only a block that is free already. */
  lemma FreedUnlessInside(rs: seq<Range>, s: int, e: int)
    requires Coalesced(rs) && rs != [] && s <= e && CanFree(rs, s, e)
    ensures FreeEffect(rs, s, e).AlreadyFree? ==> Inside(rs, s, e)
  {
    hide Merge, Coalesced, Step, FreeEffect;
    FreeIsRightIff(rs, s, e);
    if FreeEffect(rs, s, e).AlreadyFree? { AllInOne(rs, s, e); }
  }

  method Take(pm: PhysicalMemoryManager, pages: nat, order: nat) returns (answer: Answer, ghost event: Event)
    requires pm.Valid() && PageMultiple(pm.ranges)
    modifies pm, pm.freeList, pm.nodes
    ensures pm.Valid() && pm.nodes == old(pm.nodes) && PageMultiple(pm.ranges)
    ensures Next(old(pm.ranges), event, pm.ranges) && (event == Nothing <==> answer != Served)
    ensures Answers(Fetch(pages, order), event) && Because(Fetch(pages, order), old(Found(pm)), answer)
  {
    hide PhysicalMemoryManager.Core;
    hide Coalesced, Total, CanHold, Pow2, Aligned, CleanFits, Carve, FirstAligned;
    ghost var was := pm.ranges;
    event := Nothing;
    PagesFitCleanly(was, pages * PAGE_SIZE, order);
    var r;
    ghost var i;
    r, i := pm.Alloc(pages * PAGE_SIZE, order);
    if r.Err? {
      ErrorCases(r);
      return Refused(r.error), event;
    }
    var s, e := r.value, EndAddress(r.value, pages * PAGE_SIZE);
    FirstAlignedPage(was[i], order);
    CarvePageMultiple(was, i, s, e);
    return Served, Took(s, e);
  }

  method Hold(pm: PhysicalMemoryManager, start: nat, size: nat) returns (answer: Answer, ghost event: Event)
    requires pm.Valid() && PageMultiple(pm.ranges)
    modifies pm, pm.freeList, pm.nodes
    ensures pm.Valid() && pm.nodes == old(pm.nodes) && PageMultiple(pm.ranges)
    ensures Next(old(pm.ranges), event, pm.ranges) && (event == Nothing <==> answer != Served)
    ensures Answers(Reserve(start, size), event) && Because(Reserve(start, size), old(Found(pm)), answer)
  {
    hide PhysicalMemoryManager.Core;
    hide Coalesced, Total, Carve, Down, Takable, Refusal;
    ghost var was := pm.ranges;
    event := Nothing;
    if size == 0 || pm.freeMemorySize < size {
      return Refused(InvalidSize), event;
    }
    var (s, n) := AlignBlock(start, size, PAGE_SHIFT);
    ReservedPages(start, size);
    HasMemory(pm);
    var may := MayReserve(pm, s, EndAddress(s, n));
    if !may {
      return NotMade, event;
    }
    var err;
    ghost var i;
    err, i := pm.ReserveMemory(start, size, PAGE_SHIFT);
    if err == None {
      CarvePageMultiple(was, i, s, EndAddress(s, n));
      return Served, Took(s, EndAddress(s, n));
    }
    return Refused(err.value), event;
  }

  lemma ReservedPages(start: nat, size: nat)
    requires size > 0
    ensures var (s, n) := AlignBlock(start, size, PAGE_SHIFT); WholePages(s, EndAddress(s, n))
  {
    hide Down, Pow2;
    AlignBlockLeast(start, size, PAGE_SHIFT);
    PageIsPow2();
  }

  lemma HasMemory(pm: PhysicalMemoryManager)
    requires pm.Valid() && pm.freeMemorySize > 0
    ensures pm.memorySize > 0
  {
    hide PhysicalMemoryManager.Core;
  }

  // ---------------------------------------------------------------- runs

  /** The free lists of the run: each follows from the one before by the effect of the call. */
  ghost predicate Follows(found: seq<Before>, events: seq<Event>) {
    && |found| == |events| + 1 && found[0].ranges == []
    && forall k :: 0 <= k < |events| ==>
      Coalesced(found[k].ranges) && Next(found[k].ranges, events[k], found[k + 1].ranges)
  }

  /** After any run from the empty manager the free list is sorted, disjoint and coalesced, its bytes are those that the
      effects of the calls give
        by set addition and removal, and the counter is their number. A call has no effect exactly
      if it is refused or not made, for a reason that lies in what it found. */
  method Drive(pm: PhysicalMemoryManager, calls: seq<Call>)
    returns (answers: seq<Answer>, ghost events: seq<Event>, ghost found: seq<Before>)
    requires pm.Valid() && pm.ranges == []
    modifies pm, pm.freeList, pm.nodes
    ensures pm.Valid() && pm.nodes == old(pm.nodes) && Coalesced(pm.ranges) && pm.freeMemorySize == Total(pm.ranges)
    ensures |answers| == |events| == |calls| && Follows(found, events) && found[|calls|] == Found(pm)
    ensures forall k :: 0 <= k < |calls| ==>
      Answers(calls[k], events[k]) && (events[k] == Nothing <==> answers[k] != Served)
    ensures forall k :: 0 <= k < |calls| ==> Because(calls[k], found[k], answers[k])
    ensures Bytes(pm.ranges) == FreeBytes(events)
  {
    hide PhysicalMemoryManager.Core;
    hide Coalesced, Total, Bytes, Next, Block, Aligned, Pow2, AlignBlock, Because;
    answers, events, found := [], [], [Found(pm)];
    NothingFree();
    for n := 0 to |calls|
      invariant pm.Valid() && pm.nodes == old(pm.nodes) && PageMultiple(pm.ranges) &&
        Bytes(pm.ranges) == FreeBytes(events)
      invariant |answers| == |events| == n && Follows(found, events) && found[n] == Found(pm)
      invariant forall k :: 0 <= k < n ==>
        Answers(calls[k], events[k]) && (events[k] == Nothing <==> answers[k] != Served)
      invariant forall k :: 0 <= k < n ==> Because(calls[k], found[k], answers[k])
    {
      ghost var was := pm.ranges;
      var answer;
      ghost var event;
      match calls[n] {
        case Feed(page, pages) => answer, event := Give(pm, page, pages, true);
        case Return(page, pages) => answer, event := Give(pm, page, pages, false);
        case Fetch(pages, order) => answer, event := Take(pm, pages, order);
        case Reserve(start, size) => answer, event := Hold(pm, start, size);
      }
      NextKeeps(was, event, pm.ranges);
      assert (events + [event])[..n] == events;
      answers, events, found := answers + [answer], events + [event], found + [Found(pm)];
    }
  }

  lemma NothingFree()
    ensures Bytes([]) == FreeBytes([])
  {
    assert forall x :: !Covered([], x);
  }
}
