/** One unshared kernel address space (src/kernel/memory_manager.rs and virtual_memory_manager.rs) on top of the page
    manager and the frames of the physical memory manager. */
module AddressSpace {
  import opened Collections
  import opened Radix
  import opened PageTable
  import opened TablePaths
  import opened Paging
  import opened VirtualMemory
  import opened DataType

  // ---------------------------------------------------------------- pages of a region

  /** The canonical page number of an address. */
  function PageNo(address: nat): nat
    requires address >= HIGH_MEMORY_START_ADDRESS
  {
    (address - HIGH_MEMORY_START_ADDRESS) / PAGE
  }

  /** The pages of the allocation window. */
  predicate InWindow(vp: nat) { 0xff2000000 <= vp < 0xff5000000 }

  predicate OnPages(start: nat, end: nat) {
    MALLOC_START_ADDRESS <= start && end <= MALLOC_END_ADDRESS && start % PAGE == 0 && (end + 1) % PAGE == 0
  }

  /** The region lies on page boundaries in the allocation window. */
  predicate Placed(e: Entry) { HIGH_MEMORY_START_ADDRESS <= e.start <= e.end && OnPages(e.start, e.end) }

  function PagesIn(start: nat, end: nat): nat
    requires start <= end
  {
    (end + 1 - start) / PAGE
  }

  function Count(e: Entry): nat
    requires e.start <= e.end
  {
    PagesIn(e.start, e.end)
  }

  predicate Has(e: Entry, vp: nat)
    requires Placed(e)
  {
    PageNo(e.start) <= vp < PageNo(e.start) + Count(e)
  }

  lemma HasInWindow(e: Entry, vp: nat)
    requires Placed(e) && Has(e, vp)
    ensures InWindow(vp)
  {
  }

  lemma PagesApart(e: Entry, e': Entry, vp: nat)
    requires Placed(e) && Placed(e') && (e.end < e'.start || e'.end < e.start) && Has(e, vp)
    ensures !Has(e', vp)
  {
  }

  // ---------------------------------------------------------------- what the manager keeps

  /** The tables translate the live pages and the fixed ones (kernel image, direct map), and nothing else. */
  ghost predicate Agrees(t: Tables, root: nat, top: nat, live: map<nat, Mapping>, fixed: map<nat, Mapping>) {
    forall vp: nat :: Covers(0, top, vp) ==>
      Walk(t, root, top, vp) == if vp in live then Some(live[vp]) else if vp in fixed then Some(fixed[vp]) else None
  }

  ghost predicate Unblocked(t: Tables, root: nat, top: nat) {
    forall vp: nat :: InWindow(vp) ==> !Blocked(t, root, top, vp, false)
  }

  /** No frame backs two live pages, and no backing frame is free, a table, or spent. */
  ghost predicate Separate(live: map<nat, Mapping>, h: Holdings) {
    && (forall vp :: vp in live ==>
      live[vp].frame !in h.tables && live[vp].frame !in h.free && live[vp].frame !in h.spent)
    && (forall u, v :: u in live && v in live && u != v ==> live[u].frame != live[v].frame)
    && h.spent !! h.free && h.spent !! h.tables && h.free !! h.tables
  }

  /** The fixed pages keep the root in use and stay out of the window. */
  ghost predicate Grounded(fixed: map<nat, Mapping>, top: nat) {
    (forall vp :: vp in fixed ==> !InWindow(vp)) && exists vp :: vp in fixed && Covers(0, top, vp)
  }

  function Total(h: Holdings): set<nat> { h.tables + h.free + h.spent }

  /** Page `i` of the region is live exactly if the region records a frame for it, the one it is mapped to. */
  ghost predicate PageTied(e: Entry, live: map<nat, Mapping>, i: nat)
    requires Placed(e)
  {
    && (i in e.pages <==> PageNo(e.start) + i in live)
    && (i in e.pages ==> live[PageNo(e.start) + i] == Mapping(e.pages[i], e.attr))
  }

  ghost predicate AllPlaced(es: seq<Entry>) { forall k :: 0 <= k < |es| ==> Placed(es[k]) }

  ghost predicate Owned(es: seq<Entry>, vp: nat)
    requires AllPlaced(es)
  {
    exists k :: 0 <= k < |es| && Has(es[k], vp)
  }

  /** The region records exactly its live pages. */
  ghost predicate EntryTied(e: Entry, live: map<nat, Mapping>)
    requires Placed(e)
  {
    (forall i :: i in e.pages ==> i < Count(e)) && (forall i: nat :: i < Count(e) ==> PageTied(e, live, i))
  }

  /** The regions record exactly the live pages. */
  ghost predicate Tied(es: seq<Entry>, live: map<nat, Mapping>)
    requires AllPlaced(es)
  {
    (forall k :: 0 <= k < |es| ==> EntryTied(es[k], live)) && (forall vp :: vp in live ==> Owned(es, vp))
  }

  ghost predicate Listed(es: seq<Entry>, live: map<nat, Mapping>) { Sorted(es) && AllPlaced(es) && Tied(es, live) }

  // ---------------------------------------------------------------- changing one page of a region

  function Plus(e: Entry, i: nat, frame: nat): Entry { Entry(e.start, e.end, e.attr, e.pages[i := frame]) }

  function Minus(e: Entry, i: nat): Entry { Entry(e.start, e.end, e.attr, e.pages - {i}) }

  lemma EntryPlus(e: Entry, live: map<nat, Mapping>, i: nat, frame: nat)
    requires Placed(e) && EntryTied(e, live) && i < Count(e)
    ensures EntryTied(Plus(e, i, frame), live[PageNo(e.start) + i := Mapping(frame, e.attr)])
  {
    hide PageNo, PagesIn, OnPages;
    var e', live' := Plus(e, i, frame), live[PageNo(e.start) + i := Mapping(frame, e.attr)];
    forall m: nat | m < Count(e) ensures PageTied(e', live', m) { assert PageTied(e, live, m); }
  }

  lemma EntryMinus(e: Entry, live: map<nat, Mapping>, i: nat)
    requires Placed(e) && EntryTied(e, live)
    ensures EntryTied(Minus(e, i), live - {PageNo(e.start) + i})
  {
    hide PageNo, PagesIn, OnPages;
    var e', live' := Minus(e, i), live - {PageNo(e.start) + i};
    forall m: nat | m < Count(e) ensures PageTied(e', live', m) { assert PageTied(e, live, m); }
  }

  /** A change outside the region does not concern it. */
  lemma EntryBeside(e: Entry, live: map<nat, Mapping>, live': map<nat, Mapping>, vp: nat)
    requires Placed(e) && EntryTied(e, live) && !Has(e, vp)
    requires forall v :: v != vp ==> (v in live <==> v in live') && (v in live ==> live'[v] == live[v])
    ensures EntryTied(e, live')
  {
    hide PageNo, PagesIn, OnPages;
    forall m: nat | m < Count(e) ensures PageTied(e, live', m) {
      assert PageTied(e, live, m);
      assert Has(e, PageNo(e.start) + m);
    }
  }

  lemma OthersMiss(es: seq<Entry>, k: nat, j: nat, vp: nat)
    requires Sorted(es) && AllPlaced(es) && k < |es| && j < |es| && j != k && Has(es[k], vp)
    ensures !Has(es[j], vp)
  {
    PagesApart(es[k], es[j], vp);
  }

  lemma SameRanges(es: seq<Entry>, k: nat, e: Entry)
    requires Sorted(es) && AllPlaced(es) && k < |es| && e.start == es[k].start && e.end == es[k].end
    ensures Sorted(es[k := e]) && AllPlaced(es[k := e])
  {
  }

  lemma OwnedSame(es: seq<Entry>, k: nat, e: Entry, vp: nat)
    requires AllPlaced(es) && k < |es| && e.start == es[k].start && e.end == es[k].end && AllPlaced(es[k := e]) &&
      Owned(es, vp)
    ensures Owned(es[k := e], vp)
  {
    hide PageNo, PagesIn, OnPages;
    var j :| 0 <= j < |es| && Has(es[j], vp);
    assert Has(es[k := e][j], vp);
  }

  /** One page of region `k` changes. */
  lemma TiedChange(es: seq<Entry>, live: map<nat, Mapping>, live': map<nat, Mapping>, k: nat, e: Entry, vp: nat)
    requires Listed(es, live) && k < |es| && e.start == es[k].start && e.end == es[k].end && Placed(e)
    requires Has(es[k], vp) && EntryTied(e, live')
    requires forall v :: v != vp ==> (v in live <==> v in live') && (v in live ==> live'[v] == live[v])
    ensures Listed(es[k := e], live')
  {
    hide PageNo, PagesIn, OnPages, Sorted, EntryTied, Owned, Has;
    SameRanges(es, k, e);
    var r := es[k := e];
    forall j | 0 <= j < |r| ensures EntryTied(r[j], live') {
      if j != k {
        OthersMiss(es, k, j, vp);
        EntryBeside(es[j], live, live', vp);
      }
    }
    forall v | v in live' ensures Owned(r, v) {
      if v == vp { HasOwned(es, k, vp); }
      OwnedSame(es, k, e, v);
    }
  }

  lemma HasOwned(es: seq<Entry>, k: nat, vp: nat)
    requires AllPlaced(es) && k < |es| && Has(es[k], vp)
    ensures Owned(es, vp)
  {
  }

  lemma TiedAdd(es: seq<Entry>, live: map<nat, Mapping>, k: nat, i: nat, frame: nat)
    requires Listed(es, live) && k < |es| && i < Count(es[k])
    ensures Listed(es[k := Plus(es[k], i, frame)], live[PageNo(es[k].start) + i := Mapping(frame, es[k].attr)])
  {
    hide PageNo, PagesIn, OnPages, Sorted, EntryTied, Owned;
    var vp := PageNo(es[k].start) + i;
    EntryPlus(es[k], live, i, frame);
    TiedChange(es, live, live[vp := Mapping(frame, es[k].attr)], k, Plus(es[k], i, frame), vp);
  }

  lemma TiedDrop(es: seq<Entry>, live: map<nat, Mapping>, k: nat, i: nat)
    requires Listed(es, live) && k < |es| && i in es[k].pages
    ensures Listed(es[k := Minus(es[k], i)], live - {PageNo(es[k].start) + i})
  {
    hide PageNo, PagesIn, OnPages, Sorted, Owned;
    var vp := PageNo(es[k].start) + i;
    EntryMinus(es[k], live, i);
    TiedChange(es, live, live - {vp}, k, Minus(es[k], i), vp);
  }

  // ---------------------------------------------------------------- adding and removing a region

  lemma InsertedPlaced(es: seq<Entry>, k: nat, e: Entry)
    requires AllPlaced(es) && Placed(e) && k <= |es|
    ensures AllPlaced(Inserted(es, k, e))
  {
  }

  lemma InsertedOwned(es: seq<Entry>, k: nat, e: Entry, vp: nat)
    requires AllPlaced(es) && k <= |es| && AllPlaced(Inserted(es, k, e)) && Owned(es, vp)
    ensures Owned(Inserted(es, k, e), vp)
  {
    hide PageNo, PagesIn, OnPages, Inserted;
    var j :| 0 <= j < |es| && Has(es[j], vp);
    InsertedIndex(es, k, e, if j < k then j else j + 1);
    assert Has(Inserted(es, k, e)[if j < k then j else j + 1], vp);
  }

  lemma ClearPages(es: seq<Entry>, live: map<nat, Mapping>, e: Entry, vp: nat)
    requires Listed(es, live) && Placed(e) && Clear(es, e) && Has(e, vp)
    ensures vp !in live
  {
    hide PageNo, PagesIn, OnPages, EntryTied;
    if vp in live {
      var j :| 0 <= j < |es| && Has(es[j], vp);
      PagesApart(e, es[j], vp);
    }
  }

  lemma EmptyTied(es: seq<Entry>, live: map<nat, Mapping>, e: Entry)
    requires Listed(es, live) && Placed(e) && e.pages == map[] && Clear(es, e)
    ensures EntryTied(e, live)
  {
    hide PageNo, PagesIn, OnPages, Sorted, Tied;
    forall i: nat | i < Count(e) ensures PageTied(e, live, i) {
      assert Has(e, PageNo(e.start) + i);
      ClearPages(es, live, e, PageNo(e.start) + i);
    }
  }

  lemma TiedInsert(es: seq<Entry>, live: map<nat, Mapping>, k: nat, e: Entry)
    requires Listed(es, live) && k <= |es| && Placed(e) && e.pages == map[] && Clear(es, e) &&
      Sorted(Inserted(es, k, e))
    ensures Listed(Inserted(es, k, e), live)
  {
    hide PageNo, PagesIn, OnPages, Inserted, Sorted, Owned, EntryTied;
    var r := Inserted(es, k, e);
    InsertedPlaced(es, k, e);
    EmptyTied(es, live, e);
    forall j | 0 <= j < |r| ensures EntryTied(r[j], live) {
      InsertedIndex(es, k, e, 0);
      InsertedIndex(es, k, e, j);
    }
    forall vp | vp in live ensures Owned(r, vp) { InsertedOwned(es, k, e, vp); }
  }

  lemma DroppedInserted(es: seq<Entry>, k: nat, e: Entry)
    requires k <= |es|
    ensures |Inserted(es, k, e)| == |es| + 1 && Inserted(es, k, e)[k] == e && Dropped(Inserted(es, k, e), k) == es
  {
  }

  lemma DroppedSorted(es: seq<Entry>, k: nat)
    requires Sorted(es) && AllPlaced(es) && k < |es|
    ensures Sorted(Dropped(es, k)) && AllPlaced(Dropped(es, k)) && |Dropped(es, k)| == |es| - 1
  {
  }

  lemma EmptyEntry(e: Entry, live: map<nat, Mapping>, vp: nat)
    requires Placed(e) && EntryTied(e, live) && e.pages == map[] && vp in live
    ensures !Has(e, vp)
  {
    hide PageNo, PagesIn, OnPages;
    assert Has(e, vp) ==> PageTied(e, live, vp - PageNo(e.start));
  }

  lemma DroppedOwned(es: seq<Entry>, live: map<nat, Mapping>, k: nat, vp: nat)
    requires Listed(es, live) && k < |es| && es[k].pages == map[] && vp in live && AllPlaced(Dropped(es, k))
    ensures Owned(Dropped(es, k), vp)
  {
    hide PageNo, PagesIn, OnPages, Sorted, Dropped, EntryTied, Has;
    var j :| 0 <= j < |es| && Has(es[j], vp);
    EmptyEntry(es[k], live, vp);
    DroppedIndex(es, k, if j < k then j else j - 1);
    assert Has(Dropped(es, k)[if j < k then j else j - 1], vp);
  }

  lemma TiedRemove(es: seq<Entry>, live: map<nat, Mapping>, k: nat)
    requires Listed(es, live) && k < |es| && es[k].pages == map[]
    ensures Listed(Dropped(es, k), live)
  {
    hide PageNo, PagesIn, OnPages, Dropped, Sorted, EntryTied, Owned;
    var r := Dropped(es, k);
    DroppedSorted(es, k);
    forall j | 0 <= j < |r| ensures EntryTied(r[j], live) { DroppedIndex(es, k, j); }
    forall vp | vp in live ensures Owned(r, vp) { DroppedOwned(es, live, k, vp); }
  }

  // ---------------------------------------------------------------- the translation after one page

  lemma WindowCovered(vp: nat)
    requires InWindow(vp)
    ensures Covers(0, 3, vp)
  {
    assert Span(4) == 512 * (512 * (512 * (512 * Span(0))));
  }

  lemma AgreesAdd(t: Tables, t': Tables, root: nat, top: nat, live: map<nat, Mapping>, fixed: map<nat, Mapping>,
                  vp: nat, m: Mapping)
    requires Agrees(t, root, top, live, fixed)
    requires forall v: nat :: Covers(0, top, v) ==>
      Walk(t', root, top, v) == if v == vp then Some(m) else Walk(t, root, top, v)
    ensures Agrees(t', root, top, live[vp := m], fixed)
  {
    hide Walk, Covers;
  }

  lemma AgreesSame(t: Tables, t': Tables, root: nat, top: nat, live: map<nat, Mapping>, fixed: map<nat, Mapping>)
    requires Agrees(t, root, top, live, fixed)
    requires forall v: nat :: Covers(0, top, v) ==> Walk(t', root, top, v) == Walk(t, root, top, v)
    ensures Agrees(t', root, top, live, fixed)
  {
    hide Walk, Covers;
  }

  lemma AgreesDrop(t: Tables, t': Tables, root: nat, top: nat, live: map<nat, Mapping>, fixed: map<nat, Mapping>,
                   vp: nat)
    requires Agrees(t, root, top, live, fixed) && vp !in fixed
    requires forall v: nat :: Covers(0, top, v) ==>
      Walk(t', root, top, v) == if v == vp then None else Walk(t, root, top, v)
    ensures Agrees(t', root, top, live - {vp}, fixed)
  {
    hide Walk, Covers;
  }

  lemma RootInUse(t: Tables, root: nat, top: nat, live: map<nat, Mapping>, fixed: map<nat, Mapping>)
    requires Agrees(t, root, top, live, fixed) && Grounded(fixed, top) && root in t
    ensures !NoDescriptor(t, root)
  {
    hide Covers, Index, Span;
    var vp :| vp in fixed && Covers(0, top, vp);
    assert Walk(t, root, top, vp).Some?;
  }

  lemma PageAddress(n: nat)
    ensures (n * PAGE) / PAGE == n && (n * PAGE) % PAGE == 0
  {
  }

  class MemoryManager {
    const pager: PageManager
    var entries: seq<Entry>
    ghost var live: map<nat, Mapping>
    ghost const fixed: map<nat, Mapping>
    /** Frames that hold entries of the physical memory manager. */
    ghost var pooled: set<nat>
    /** The runs of frames that allocate_physical_memory handed out, in order. */
    ghost var handed: seq<set<nat>>

    /** Where the frames are that back no page; those of the entry pool count as spent. */
    ghost function Stock(): Holdings
      reads this`pooled, pager
    {
      Holdings(pager.tables.Keys, pager.frames, pager.spent + pooled)
    }

    /** Every run that was handed out since the first `n` is free again. */
    ghost predicate ReturnedSince(n: nat)
      reads this`handed, pager`frames
    {
      forall i :: n <= i < |handed| ==> handed[i] <= pager.frames
    }

    /** Tables, translation and frames agree with the live pages. */
    ghost predicate Space()
      reads this`live, this`pooled, pager
    {
      && pager.Valid() && pager.LostTables() == {} && pager.top == 3 && Grounded(fixed, 3)
      && Agrees(pager.tables, pager.root, 3, live, fixed) && Unblocked(pager.tables, pager.root, 3)
      && Separate(live, Stock()) && forall vp :: vp in live ==> InWindow(vp)
    }

    /** All frames that are a table, free, spent, or behind a live page. */
    ghost function Everything(): set<nat>
      reads this`live, this`pooled, pager
    {
      Total(Stock()) + Backing(live)
    }

    ghost predicate Valid()
      reads this, pager
    {
      Space() && Listed(entries, live)
    }

    /** No region yet; `fixed` is what the boot code mapped. */
    constructor (p: PageManager, ghost mapped: map<nat, Mapping>)
      requires p.Valid() && p.top == 3 && Grounded(mapped, 3)
      requires Agrees(p.tables, p.root, 3, map[], mapped) && Unblocked(p.tables, p.root, 3)
      requires p.LostTables() == {}
      ensures Valid() && pager == p && entries == [] && fixed == mapped && pooled == {} && handed == []
    {
      pager := p;
      entries := [];
      live := map[];
      fixed := mapped;
      pooled, handed := {}, [];
    }

    /** A frame that was taken from the free ones and backs no page yet. */
    ghost predicate Loose(f: nat)
      reads this`live, this`pooled, pager
    {
      f !in Total(Stock()) && forall vp :: vp in live ==> live[vp].frame != f
    }

    /** map_address_into_page_table. */
    method Associate(vp: nat, frame: nat, attr: Attr) returns (ok: bool)
      requires Space() && InWindow(vp) && vp !in live && Loose(frame)
      modifies this`live, pager`tables, pager`frames, pager`place
      ensures Space() && Total(Stock()) == old(Total(Stock()))
      ensures live == if ok then old(live)[vp := Mapping(frame, attr)] else old(live)
      ensures |pager.frames| + 3 >= |old(pager.frames)| && (!ok ==> |old(pager.frames)| <= 3)
    {
      hide Walk, Blocked, Covers, Agrees, Unblocked, PageManager.Valid, Separate, Total, Grounded,
        PageManager.NoNewBlocks, Lost, PageManager.InUse;
      WindowCovered(vp);
      OutsideFixed(fixed, vp);
      WindowOpen(pager.tables, pager.root, vp);
      PageAddress(vp);
      PageAddress(frame);
      var err := pager.AssociateAddress(frame * PAGE, vp * PAGE, attr);
      UnblockedKept(pager, old(pager.tables));
      RootThere(pager);
      SeparateGrown(live, old(Stock()), Stock());
      ok := err.None?;
      if ok {
        SeparateAdd(live, Stock(), vp, Mapping(frame, attr));
        AgreesAdd(old(pager.tables), pager.tables, pager.root, 3, live, fixed, vp, Mapping(frame, attr));
        live := live[vp := Mapping(frame, attr)];
      } else {
        AgreesSame(old(pager.tables), pager.tables, pager.root, 3, live, fixed);
      }
    }

    /** unassociate_address of a live page: the page is unmapped even if collecting the tables goes wrong. */
    method Unassociate(vp: nat) returns (ok: bool)
      requires Space() && vp in live
      modifies this`live, pager`tables, pager`frames, pager`place, pager`spent
      ensures Space() && Total(Stock()) == old(Total(Stock()))
      ensures live == old(live) - {vp} && Loose(old(live[vp].frame))
      ensures old(pager.spent) <= pager.spent && (ok || pager.accepts ==> ok && pager.spent == old(pager.spent))
      ensures pager.tables.Keys <= old(pager.tables.Keys) && old(pager.frames) <= pager.frames
    {
      hide Walk, Blocked, Covers, Agrees, Unblocked, PageManager.Valid, Lost;
      WindowCovered(vp);
      LiveByPage(pager.tables, pager.root, live, fixed, vp);
      PageAddress(vp);
      var err := pager.UnassociateAddress(vp * PAGE, false);
      UnblockedKept(pager, old(pager.tables));
      RootThere(pager);
      AccountedPooled(old(pager.Held()), pager.Held(), pooled);
      SeparateKept(live, old(Stock()), Stock());
      AgreesDrop(old(pager.tables), pager.tables, pager.root, 3, live, fixed, vp);
      live := live - {vp};
      RootInUse(pager.tables, pager.root, 3, live, fixed);
      ok := err.None?;
    }

    // -------------------------------------------------------------- frames

    /** Frames that were taken from the free ones and back no page yet. */
    ghost predicate LooseAll(fs: set<nat>)
      reads this`live, this`pooled, pager
    {
      fs !! Total(Stock()) && forall vp :: vp in live ==> live[vp].frame !in fs
    }

    lemma LooseOne(f: nat)
      requires Loose(f)
      ensures LooseAll({f})
    {
    }

    /** The retry of allocate_physical_memory gives a frame to the entry pool of the physical memory manager. */
    method Refill()
      requires Space()
      modifies pager`frames, this`pooled
      ensures Space() && pager.frames <= old(pager.frames)
      ensures Total(Stock()) == old(Total(Stock())) && |pager.frames| + 1 >= |old(pager.frames)|
    {
      hide Walk, Blocked, Covers, Agrees, Unblocked, Shaped, Lost;
      var refill: bool := *;
      if refill && pager.frames != {} {
        var g :| g in pager.frames;
        pooled := pooled + {g};
        pager.frames := pager.frames - {g};
        SeparateKept(live, old(Stock()), Stock());
      }
    }

    /** allocate_physical_memory: some run of `count` free frames, if there is one and it is not all that is free. */
    method TakeFrames(count: nat) returns (r: Option<nat>)
      requires Space() && count > 0
      modifies pager`frames, this`pooled, this`handed
      ensures Space() && |pager.frames| + 1 + count >= |old(pager.frames)|
      ensures r.None? ==>
        Total(Stock()) == old(Total(Stock())) && (NoRun(pager.frames, count) || |pager.frames| <= count)
      ensures r.None? ==> |pager.frames| + 1 >= |old(pager.frames)| && handed == old(handed)
      ensures r.Some? ==> var fs := Block(r.value, count);
        fs <= old(pager.frames) && LooseAll(fs) && Total(Stock()) == old(Total(Stock())) - fs &&
          handed == old(handed) + [fs]
    {
      hide MemoryManager.Space, Block, Total, MemoryManager.LooseAll;
      Refill();
      if |pager.frames| <= count {
        return None;
      }
      if f :| f in pager.frames && Block(f, count) <= pager.frames {
        TakeRun(f, count);
        handed := handed + [Block(f, count)];
        return Some(f);
      }
      return None;
    }

    method TakeRun(f: nat, count: nat)
      requires Space() && Block(f, count) <= pager.frames
      modifies pager`frames
      ensures Space() && |pager.frames| + count >= |old(pager.frames)|
      ensures LooseAll(Block(f, count)) && Total(Stock()) == old(Total(Stock())) - Block(f, count)
    {
      hide Walk, Blocked, Covers, Agrees, Unblocked, Shaped, Block, Lost;
      BlockSize(f, count);
      RemoveAtMost(pager.frames, Block(f, count));
      pager.frames := pager.frames - Block(f, count);
    }

    /** pm_manager.free: the frames are free again, or were refused and are spent. */
    method GiveFrames(fs: set<nat>)
      requires Space() && LooseAll(fs)
      modifies pager`frames, pager`spent
      ensures Space() && old(pager.spent) <= pager.spent && old(pager.frames) <= pager.frames
      ensures Total(Stock()) == old(Total(Stock())) + fs
      ensures pager.accepts ==> pager.spent == old(pager.spent)
      ensures pager.spent == old(pager.spent) ==> fs <= pager.frames
    {
      hide Walk, Blocked, Covers, Agrees, Unblocked, Shaped, Lost;
      var refused: bool := *;
      if refused && !pager.accepts {
        pager.spent := pager.spent + fs;
      } else {
        pager.frames := pager.frames + fs;
      }
    }

    /** The frame is forgotten. */
    ghost method LoseFrame(f: nat)
      requires Space() && Loose(f)
      modifies pager`spent
      ensures Space() && old(pager.spent) < pager.spent && Total(Stock()) == old(Total(Stock())) + {f}
    {
      hide Walk, Blocked, Covers, Agrees, Unblocked, Shaped, Lost;
      pager.spent := pager.spent + {f};
    }

    // -------------------------------------------------------------- freeing a region

    /** One round of the loop of _free_address. If the unmapping reports an error, the frame is never given back. */
    method FreePage(k: nat, i: nat) returns (ok: bool)
      requires Valid() && k < |entries| && i in entries[k].pages
      modifies this`entries, this`live, pager`tables, pager`frames, pager`place, pager`spent
      ensures Valid() && old(pager.spent) <= pager.spent
      ensures entries == old(entries)[k := Minus(old(entries[k]), i)]
      ensures live == old(live) - {PageNo(old(entries[k].start)) + i}
      ensures Total(Stock()) == old(Total(Stock())) + {old(entries[k].pages[i])} && Everything() == old(Everything())
      ensures pager.tables.Keys <= old(pager.tables.Keys) && old(pager.frames) <= pager.frames
      ensures pager.spent == old(pager.spent) ==> old(entries[k].pages[i]) in pager.frames
      ensures (!ok ==> old(pager.spent) < pager.spent) && (pager.accepts ==> ok && pager.spent == old(pager.spent))
    {
      hide Listed, PageNo, PagesIn, MemoryManager.Space, Total, Backing, MemoryManager.Loose, MemoryManager.LooseAll;
      EntryFacts(entries, live, k);
      var frame := entries[k].pages[i];
      var vp := PageNo(entries[k].start) + i;
      TiedDrop(entries, live, k, i);
      entries := entries[k := Minus(entries[k], i)];
      ok := Unassociate(vp);
      if ok {
        LooseOne(frame);
        GiveFrames({frame});
      } else {
        LoseFrame(frame);
      }
      BackingDrop(old(live), vp);
    }

    /** The loop of _free_address over the pages of region `k`. */
    method FreePages(k: nat) returns (ok: bool)
      requires Valid() && k < |entries|
      modifies this`entries, this`live, pager`tables, pager`frames, pager`place, pager`spent
      ensures Valid() && old(pager.spent) <= pager.spent && Everything() == old(Everything())
      ensures ok ==>
        entries == old(entries)[k := Entry(old(entries[k].start), old(entries[k].end), old(entries[k].attr), map[])]
      ensures ok ==> live == Without(old(live), PageNo(old(entries[k].start)), Count(old(entries[k])))
      ensures ok ==> Total(Stock()) == old(Total(Stock())) + old(entries[k].pages.Values)
      ensures pager.tables.Keys <= old(pager.tables.Keys) && old(pager.frames) <= pager.frames
      ensures ok && pager.spent == old(pager.spent) ==>
        pager.frames == old(pager.frames) + old(entries[k].pages.Values) + (old(pager.tables.Keys) - pager.tables.Keys)
      ensures (!ok ==> old(pager.spent) < pager.spent) && (pager.accepts ==> ok && pager.spent == old(pager.spent))
    {
      hide Space, Without, Done, Rest, Total, PageNo, PagesIn, Listed, MemoryManager.Stock, MemoryManager.Everything;
      BoundFacts(entries, live, k);
      RegionLoose(k);
      ghost var e0, es0, first := entries[k], entries, PageNo(entries[k].start);
      var count := Count(entries[k]);
      DoneNone(e0.pages, live, first);
      for i := 0 to count + 1
        invariant Valid() && old(pager.spent) <= pager.spent && Everything() == old(Everything())
        invariant entries == es0[k := Entry(e0.start, e0.end, e0.attr, Rest(e0.pages, i))]
        invariant live == Without(old(live), first, if i < count then i else count)
        invariant Total(Stock()) == old(Total(Stock())) + Done(e0.pages, i)
        invariant pager.tables.Keys <= old(pager.tables.Keys) && old(pager.frames) <= pager.frames &&
          (pager.accepts ==> pager.spent == old(pager.spent))
      {
        DoneStep(e0.pages, i);
        WithoutStep(old(live), first, i);
        if i in entries[k].pages {
          ok := FreePage(k, i);
          if !ok {
            return;
          }
        } else if i < count {
          Unrecorded(entries, live, k, i);
        }
      }
      DoneAll(e0.pages, count + 1);
      FreedExactly(old(Stock()), e0.pages.Values, old(pager.spent), old(pager.tables.Keys), old(pager.frames));
      return true;
    }

    /** The recorded frames of a region are none of those that back no page. */
    lemma RegionLoose(k: nat)
      requires Valid() && k < |entries|
      ensures entries[k].pages.Values !! Total(Stock())
      ensures var h := Stock(); h.free !! h.tables && h.spent !! h.free && h.spent !! h.tables
      ensures Stock() == Holdings(pager.tables.Keys, pager.frames, pager.spent + pooled)
    {
      hide PageNo, PagesIn, OnPages, Listed, Agrees, Unblocked, PageManager.Valid, Lost;
      EntryFacts(entries, live, k);
    }

    /** If nothing was refused, what left the pages and the tables is free. */
    lemma FreedExactly(h: Holdings, fs: set<nat>, spent: set<nat>, tables: set<nat>, frames: set<nat>)
      requires Space() && Total(Stock()) == Total(h) + fs && fs !! Total(h) && h.free !! h.tables &&
        h.spent !! h.free && h.spent !! h.tables
      requires h == Holdings(tables, frames, spent + pooled) && pager.tables.Keys <= tables
      ensures pager.spent == spent ==> pager.frames == frames + fs + (tables - pager.tables.Keys)
    {
      hide Agrees, Unblocked, PageManager.Valid, Lost;
      RootThere(pager);
    }

    /** _free_address: every page of region `k` is unmapped and its frame given back, then the region goes. */
    method FreeEntry(k: nat) returns (ok: bool)
      requires Valid() && k < |entries|
      modifies this`entries, this`live, pager`tables, pager`frames, pager`place, pager`spent
      ensures Valid() && old(pager.spent) <= pager.spent && Everything() == old(Everything())
      ensures ok ==> entries == Dropped(old(entries), k)
      ensures ok ==> live == Without(old(live), PageNo(old(entries[k].start)), Count(old(entries[k])))
      ensures ok ==> Total(Stock()) == old(Total(Stock())) + old(entries[k].pages.Values)
      ensures pager.tables.Keys <= old(pager.tables.Keys) && old(pager.frames) <= pager.frames
      ensures ok && pager.spent == old(pager.spent) ==>
        pager.frames == old(pager.frames) + old(entries[k].pages.Values) + (old(pager.tables.Keys) - pager.tables.Keys)
      ensures (!ok ==> old(pager.spent) < pager.spent) && (pager.accepts ==> ok && pager.spent == old(pager.spent))
    {
      hide Space, Without, Total, PageNo, PagesIn, Listed, MemoryManager.Everything;
      BoundFacts(entries, live, k);
      ok := FreePages(k);
      if ok {
        TiedRemove(entries, live, k);
        entries := Dropped(entries, k);
      }
    }

    // -------------------------------------------------------------- allocating

    /** alloc_virtual_address: an empty region at the least free address of the window. */
    method AllocVirtualAddress(size: nat, attr: Attr) returns (r: Option<nat>)
      requires Valid() && size > 0 && size % PAGE == 0
      modifies this`entries
      ensures Valid()
      ensures r.None? ==> entries == old(entries) && NoAddress(entries, size)
      ensures r.Some? ==> Fresh(old(entries), entries, r.value, size, attr)
      ensures r.Some? ==> forall a: nat :: Fits(old(entries), size, WindowOf(AllocArea), a) ==>
        entries[r.value].start <= a
    {
      hide Space, Tied, PageNo, PagesIn, Inserted, Fits, Sorted, OnPages;
      var found := FindUsableMemoryArea(entries, size, AllocArea);
      if found.None? {
        return None;
      }
      var e := Entry(found.value, found.value + size - 1, attr, map[]);
      FitsPlaced(entries, found.value, size, attr);
      r := InsertEntry(entries, e);
      TiedInsert(entries, live, r.value, e);
      InsertedUpdate(entries, r.value, e, e);
      entries := Inserted(entries, r.value, e);
    }

    /** The rollback loop of _map_address; its errors are only logged. */
    method UnmapRun(first: nat, b: nat, attr: Attr, i: nat, ghost live0: map<nat, Mapping>)
      requires Space() && live == Added(live0, first, b, attr, i)
      requires forall vp :: vp in live0 ==> !InBlock(first, i, vp) && !InBlock(b, i, live0[vp].frame)
      modifies this`live, pager`tables, pager`frames, pager`place, pager`spent
      ensures Space() && Total(Stock()) == old(Total(Stock())) && old(pager.spent) <= pager.spent
      ensures live == live0 && (pager.accepts ==> pager.spent == old(pager.spent))
    {
      hide Space, Total, Without, Added;
      AddedFacts(live0, first, b, attr, i);
      DoneNone(map[], live, first);
      for u := 0 to i
        invariant Space() && Total(Stock()) == old(Total(Stock())) && old(pager.spent) <= pager.spent
        invariant live == Without(old(live), first, u) && (pager.accepts ==> pager.spent == old(pager.spent))
      {
        WithoutStep(old(live), first, u);
        assert InBlock(first, i, first + u);
        var _ := Unassociate(first + u);
      }
      AddedWithout(live0, first, b, attr, i);
    }

    /** The loop of _map_address over a run of frames; on an error the pages mapped so far are unmapped again. */
    method MapRun(first: nat, b: nat, count: nat, attr: Attr) returns (ok: bool)
      requires Space() && LooseAll(Block(b, count))
      requires forall vp: nat :: InBlock(first, count, vp) ==> InWindow(vp) && vp !in live
      modifies this`live, pager`tables, pager`frames, pager`place, pager`spent
      ensures Space() && Total(Stock()) == old(Total(Stock())) && old(pager.spent) <= pager.spent
      ensures live == if ok then Added(old(live), first, b, attr, count) else old(live)
      ensures (ok || pager.accepts ==> pager.spent == old(pager.spent)) && (!ok ==> |old(pager.frames)| <= 3 * count)
    {
      hide Space, Total, Without, Added, Block;
      BlockFacts(b, count);
      AddedStep(live, first, b, attr, 0);
      for i := 0 to count
        invariant Space() && Total(Stock()) == old(Total(Stock())) && pager.spent == old(pager.spent)
        invariant live == Added(old(live), first, b, attr, i) && |pager.frames| + 3 * i >= |old(pager.frames)|
      {
        NextFrame(old(live), live, first, b, count, attr, i);
        ok := Associate(first + i, b + i, attr);
        if !ok {
          UnmapRun(first, b, attr, i, old(live));
          return;
        }
        AddedStep(old(live), first, b, attr, i);
      }
      return true;
    }

    /** A new region of `count` pages on the run of frames from `b` on. */
    ghost predicate NewRun(es: seq<Entry>, k: nat, a: nat, count: nat, b: nat, attr: Attr)
      reads this
    {
      && k <= |es| && |entries| == |es| + 1 && entries == Inserted(es, k, entries[k])
      && entries[k].start == a && entries[k].end + 1 == a + count * PAGE
      && entries[k].attr == attr && entries[k].pages == Run(b, count)
    }

    /** _alloc_pages: 2^order consecutive frames behind consecutive pages, or nothing changes and the frames that were
        taken are free again, unless that was refused. */
    method AllocPages(order: nat, attr: Attr) returns (r: Option<nat>, ghost k: nat, ghost b: nat)
      requires Valid()
      modifies this`entries, this`live, this`pooled, this`handed, pager`tables, pager`frames, pager`place, pager`spent
      ensures Valid() && old(pager.spent) <= pager.spent && Everything() == old(Everything())
      ensures r.None? ==> Undone(old(entries), entries, old(live), live, old(Stock()), Stock())
      ensures r.None? ==>
        || (NoRun(pager.frames, Pow2(order)) && |pager.frames| + 1 >= |old(pager.frames)|) ||
          NoAddress(entries, Pow2(order) * PAGE) || |old(pager.frames)| <= 4 * Pow2(order) + 1
      ensures r.None? && pager.spent == old(pager.spent) ==> ReturnedSince(|old(handed)|)
      ensures old(handed) <= handed && (r.Some? || pager.accepts ==> pager.spent == old(pager.spent))
      ensures r.Some? ==> handed == old(handed) + [Block(b, Pow2(order))]
      ensures r.Some? ==>
        && NewRun(old(entries), k, r.value, Pow2(order), b, attr)
        && Block(b, Pow2(order)) <= old(pager.frames)
        && Total(Stock()) == old(Total(Stock())) - Block(b, Pow2(order))
        && Placed(entries[k]) && Without(live, PageNo(r.value), Count(entries[k])) == old(live)
    {
      hide Space, Total, PageNo, PagesIn, OnPages, Listed, Inserted, Block, Run, Added, Fits, Clear, NoRun;
      k, b := 0, 0;
      var count := Pow2(order);
      var physical := TakeFrames(count);
      if physical.None? {
        return None, k, b;
      }
      b := physical.value;
      TotalBack(old(Stock()), Total(Stock()), Block(b, count));
      assert (count * PAGE) % PAGE == 0 && (count * PAGE) / PAGE == count;
      var index := AllocVirtualAddress(count * PAGE, attr);
      if index.None? {
        GiveFrames(Block(physical.value, count));
        return None, k, b;
      }
      k := index.value;
      RegionReady(old(entries), entries, live, k, count, attr);
      var e := entries[index.value];
      BlockFacts(b, count);
      var ok := MapRun(PageNo(e.start), physical.value, count, attr);
      if !ok {
        entries := Dropped(entries, index.value);
        GiveFrames(Block(physical.value, count));
        return None, k, b;
      }
      TiedRun(entries, old(live), k, b, count);
      InsertedUpdate(old(entries), k, e, Entry(e.start, e.end, e.attr, Run(b, count)));
      entries := entries[index.value := Entry(e.start, e.end, e.attr, Run(physical.value, count))];
      AddedWithout(old(live), PageNo(e.start), b, attr, count);
      RunValues(b, count);
      BackingSplit(entries, live, k);
      return Some(e.start), k, b;
    }

    /** The region at `k` has a frame for each of its first `i` pages; apart from it nothing changed. */
    ghost predicate Filling(es: seq<Entry>, k: nat, e: Entry, i: nat, before: map<nat, Mapping>, total: set<nat>)
      reads this, pager
      requires Placed(e) && k <= |es|
    {
      && |entries| == |es| + 1 && entries == Inserted(es, k, entries[k])
      && entries[k].start == e.start && entries[k].end == e.end && entries[k].attr == e.attr
      && (forall m: nat :: m in entries[k].pages <==> m < i)
      && Without(live, PageNo(e.start), Count(e)) == before
      && Total(Stock()) + entries[k].pages.Values == total
    }

    /** One round of alloc_nonlinear_pages. */
    method FillPage(ghost es: seq<Entry>, k: nat, ghost e: Entry, i: nat, ghost before: map<nat, Mapping>,
                    ghost total: set<nat>) returns (ok: bool)
      requires Valid() && Placed(e) && k <= |es| && Filling(es, k, e, i, before, total) && i < Count(e)
      modifies this`entries, this`live, this`pooled, this`handed, pager`tables, pager`frames, pager`place, pager`spent
      ensures Valid() && old(pager.spent) <= pager.spent && (ok || pager.accepts ==> pager.spent == old(pager.spent))
      ensures Filling(es, k, e, if ok then i + 1 else i, before, total)
      ensures |pager.frames| + 5 >= |old(pager.frames)| && (!ok ==> |old(pager.frames)| <= 5)
      ensures !ok ==>
        entries == old(entries) && old(handed) <= handed &&
        (pager.spent == old(pager.spent) ==> ReturnedSince(|old(handed)|))
      ensures ok ==>
        i in entries[k].pages && handed == old(handed) + [{entries[k].pages[i]}] &&
        old(entries[k].pages.Values) <= entries[k].pages.Values
    {
      hide Space, Total, PageNo, PagesIn, OnPages, Listed, Inserted, Block, Without;
      var physical := TakeFrames(1);
      if physical.None? {
        if NoRun(pager.frames, 1) { NoneLeft(pager.frames); }
        return false;
      }
      var frame := physical.value;
      OneFrame(old(Stock()), Total(Stock()), frame);
      var vp := PageNo(entries[k].start) + i;
      NextPage(entries, live, k, i);
      ok := Associate(vp, frame, entries[k].attr);
      if !ok {
        GiveFrames({frame});
        return;
      }
      TiedAdd(entries, old(live), k, i, frame);
      WithoutAdded(old(live), PageNo(entries[k].start), Count(entries[k]), i, Mapping(frame, entries[k].attr));
      ValuesAdded(entries[k].pages, i, frame);
      InsertedUpdate(es, k, entries[k], Plus(entries[k], i, frame));
      entries := entries[k := Plus(entries[k], i, frame)];
    }

    /** A new region of the least whole number of pages, at least one, that holds `size` bytes, with a frame behind
        every page. */
    ghost predicate NewRegion(es: seq<Entry>, k: nat, a: nat, size: nat, attr: Attr)
      reads this
    {
      && k <= |es| && |entries| == |es| + 1 && entries == Inserted(es, k, entries[k])
      && entries[k].start == a && entries[k].attr == attr && Placed(entries[k])
      && a + size <= entries[k].end + 1 < a + (if size == 0 then 1 else size) + PAGE
      && LeastPages(Count(entries[k]), size) && entries[k].end + 1 == a + Count(entries[k]) * PAGE
      && (forall m: nat :: m in entries[k].pages <==> m < Count(entries[k]))
    }

    /** The region that could not be filled goes again, with the frames that it has so far. */
    method Abandon(ghost es: seq<Entry>, k: nat, ghost e: Entry, ghost i: nat, ghost before: map<nat, Mapping>,
                   ghost total: set<nat>)
      requires Valid() && Placed(e) && k <= |es| && Filling(es, k, e, i, before, total)
      modifies this`entries, this`live, pager`tables, pager`frames, pager`place, pager`spent
      ensures Valid() && old(pager.spent) <= pager.spent && Everything() == old(Everything())
      ensures pager.spent == old(pager.spent) ==> entries == es && live == before && Total(Stock()) == total
      ensures pager.spent == old(pager.spent) ==>
        old(entries[k].pages.Values) <= pager.frames && old(pager.frames) <= pager.frames
      ensures pager.accepts ==> pager.spent == old(pager.spent)
    {
      hide Space, Total, PageNo, PagesIn, OnPages, Listed, Inserted, Without, Dropped, MemoryManager.Everything;
      DroppedInserted(es, k, entries[k]);
      var _ := FreeEntry(k);
    }

    /** alloc_nonlinear_pages: a failure gives back every data frame, unless a free was refused on the way. */
    method AllocNonlinearPages(size: nat, attr: Attr) returns (r: Option<nat>, ghost k: nat)
      requires Valid()
      modifies this`entries, this`live, this`pooled, this`handed, pager`tables, pager`frames, pager`place, pager`spent
      ensures Valid() && old(pager.spent) <= pager.spent && Everything() == old(Everything())
      ensures r.None? && pager.spent == old(pager.spent) ==>
        Undone(old(entries), entries, old(live), live, old(Stock()), Stock()) && ReturnedSince(|old(handed)|)
      ensures r.None? ==> Scarce(old(entries), old(pager.frames), size)
      ensures old(handed) <= handed && (r.Some? || pager.accepts ==> pager.spent == old(pager.spent))
      ensures r.Some? ==>
        && NewRegion(old(entries), k, r.value, size, attr)
        && Total(Stock()) + entries[k].pages.Values == old(Total(Stock()))
        && Without(live, PageNo(r.value), Count(entries[k])) == old(live)
    {
      hide Space, Total, PageNo, PagesIn, OnPages, Listed, Inserted, Without, Clear, Fits, Block, Run, Added, Dropped,
        LeastPages;
      if size <= PAGE {
        LeastOne(size);
        ghost var b;
        r, k, b := AllocPages(0, attr);
        if r.Some? {
          SinglePage(b, old(Stock()), Total(Stock()), entries, live, k);
        } else if NoRun(pager.frames, 1) {
          NoneLeft(pager.frames);
        }
      } else {
        r, k := AllocSeveral(size, attr);
      }
    }

    /** The branch of alloc_nonlinear_pages for more than one page. */
    method AllocSeveral(size: nat, attr: Attr) returns (r: Option<nat>, ghost k: nat)
      requires Valid() && size > PAGE
      modifies this`entries, this`live, this`pooled, this`handed, pager`tables, pager`frames, pager`place, pager`spent
      ensures Valid() && old(pager.spent) <= pager.spent && Everything() == old(Everything())
      ensures r.None? && pager.spent == old(pager.spent) ==>
        Undone(old(entries), entries, old(live), live, old(Stock()), Stock()) && ReturnedSince(|old(handed)|)
      ensures r.None? ==> Scarce(old(entries), old(pager.frames), size)
      ensures old(handed) <= handed && (r.Some? || pager.accepts ==> pager.spent == old(pager.spent))
      ensures r.Some? ==>
        && NewRegion(old(entries), k, r.value, size, attr)
        && Total(Stock()) + entries[k].pages.Values == old(Total(Stock()))
        && Without(live, PageNo(r.value), Count(entries[k])) == old(live)
    {
      hide Space, Total, PageNo, PagesIn, OnPages, Listed, Inserted, Without, Clear, Fits, Dropped, LeastPages,
        Scarce;
      k := 0;
      var rounded := ((size - 1) / PAGE) * PAGE + PAGE;
      Rounded(size, rounded);
      var index := AllocVirtualAddress(rounded, attr);
      if index.None? {
        ScarceNow(entries, pager.frames, size, rounded);
        return None, k;
      }
      k := index.value;
      var e := entries[index.value];
      var count := Count(e);
      RegionReady(old(entries), entries, live, k, count, attr);
      WithoutNone(live, PageNo(e.start), count);
      assert e.pages.Values == {};
      for i := 0 to count
        invariant Valid() && pager.spent == old(pager.spent) && old(handed) <= handed
        invariant Filling(old(entries), k, e, i, old(live), old(Total(Stock()))) &&
          |pager.frames| + 5 * i >= |old(pager.frames)|
        invariant forall m :: |old(handed)| <= m < |handed| ==> handed[m] <= entries[k].pages.Values
      {
        var ok := FillPage(old(entries), index.value, e, i, old(live), old(Total(Stock())));
        if !ok {
          ScarceNow(old(entries), old(pager.frames), size, rounded);
          BackingSplit(entries, live, k);
          Abandon(old(entries), index.value, e, i, old(live), old(Total(Stock())));
          return None, k;
        }
      }
      BackingSplit(entries, live, k);
      return Some(e.start), k;
    }

    /** free: the region that holds the address goes, and with it exactly its frames. */
    method Free(address: nat) returns (ok: bool, ghost k: nat)
      requires Valid()
      modifies this`entries, this`live, pager`tables, pager`frames, pager`place, pager`spent
      ensures Valid() && old(pager.spent) <= pager.spent && Everything() == old(Everything())
      ensures ok ==>
        && k < |old(entries)| && Contains(old(entries)[k].start, old(entries)[k].end, (address / PAGE) * PAGE)
        && entries == Dropped(old(entries), k)
        && Total(Stock()) == old(Total(Stock())) + old(entries)[k].pages.Values
        && live == Without(old(live), PageNo(old(entries)[k].start), Count(old(entries)[k]))
      ensures ok && pager.spent == old(pager.spent) ==>
        pager.frames == old(pager.frames) + old(entries)[k].pages.Values + (old(pager.tables.Keys) - pager.tables.Keys)
      ensures pager.tables.Keys <= old(pager.tables.Keys) && (pager.accepts ==> pager.spent == old(pager.spent))
      ensures !ok && pager.spent == old(pager.spent) ==>
        && (forall j :: 0 <= j < |old(entries)| ==>
          !Contains(old(entries)[j].start, old(entries)[j].end, (address / PAGE) * PAGE))
        && Undone(old(entries), entries, old(live), live, old(Stock()), Stock())
    {
      hide Space, Total, PageNo, PagesIn, OnPages, Listed, Without, Dropped;
      k := 0;
      if entries == [] {
        return false, k;
      }
      var index := FindEntry(entries, (address / PAGE) * PAGE);
      if index.None? {
        return false, k;
      }
      k := index.value;
      ok := FreeEntry(index.value);
    }
  }

  datatype Call = Pages(order: nat, attr: Attr) | Nonlinear(size: nat, attr: Attr) | Release(address: nat)

  /** The frames behind the live pages. */
  function Backing(live: map<nat, Mapping>): set<nat> { set vp | vp in live :: live[vp].frame }

  /** Taking a region's pages away takes exactly its recorded frames away. */
  lemma BackingSplit(es: seq<Entry>, live: map<nat, Mapping>, k: nat)
    requires Listed(es, live) && k < |es| && Placed(es[k])
    ensures Backing(live) == Backing(Without(live, PageNo(es[k].start), Count(es[k]))) + es[k].pages.Values
  {
    hide PageNo, PagesIn, OnPages, Sorted, Owned;
    var e := es[k];
    var first, rest := PageNo(e.start), Without(live, PageNo(e.start), Count(e));
    assert EntryTied(e, live);
    forall f | f in Backing(live) ensures f in Backing(rest) + e.pages.Values {
      var vp :| vp in live && live[vp].frame == f;
      if Has(e, vp) {
        assert PageTied(e, live, vp - first);
        assert e.pages[vp - first] == f;
      } else {
        assert vp in rest && rest[vp].frame == f;
      }
    }
    forall f | f in e.pages.Values ensures f in Backing(live) {
      var i :| i in e.pages && e.pages[i] == f;
      assert PageTied(e, live, i);
      assert live[first + i].frame == f;
    }
    forall f | f in Backing(rest) ensures f in Backing(live) {
      var vp :| vp in rest && rest[vp].frame == f;
      assert vp in live && live[vp].frame == f;
    }
  }

  lemma BackingDrop(live: map<nat, Mapping>, vp: nat)
    requires vp in live
    ensures Backing(live) == Backing(live - {vp}) + {live[vp].frame}
  {
    forall f | f in Backing(live) && f != live[vp].frame ensures f in Backing(live - {vp}) {
      var v :| v in live && live[v].frame == f;
      assert v in live - {vp} && (live - {vp})[v].frame == f;
    }
    forall f | f in Backing(live - {vp}) ensures f in Backing(live) {
      var v :| v in live - {vp} && (live - {vp})[v].frame == f;
      assert live[v].frame == f;
    }
  }

  lemma {:induction false} RunFacts(b: nat, count: nat)
    ensures forall m: nat :: m in Run(b, count) <==> m < count
    ensures forall m: nat :: m < count ==> Run(b, count)[m] == b + m
  {
    if count > 0 { RunFacts(b, count - 1); }
  }

  lemma RunValues(b: nat, count: nat)
    ensures Run(b, count).Values == Block(b, count)
  {
    hide Run;
    RunFacts(b, count);
    forall f | f in Block(b, count) ensures f in Run(b, count).Values {
      assert InBlock(b, count, f);
      assert Run(b, count)[f - b] == f;
    }
    forall f | f in Run(b, count).Values ensures f in Block(b, count) {
      var m :| m in Run(b, count) && Run(b, count)[m] == f;
      assert InBlock(b, count, b + m);
    }
  }

  /** Any run of alloc_pages, alloc_nonlinear_pages and free keeps the address space valid, whatever fails on the
      way, and every frame stays a table, free, spent, or behind a live page. */
  method Serve(m: MemoryManager, calls: seq<Call>)
    requires m.Valid()
    modifies m`entries, m`live, m`pooled, m`handed, m.pager`tables, m.pager`frames, m.pager`place, m.pager`spent
    ensures m.Valid() && old(m.pager.spent) <= m.pager.spent && m.Everything() == old(m.Everything())
    ensures m.pager.accepts ==> m.pager.spent == old(m.pager.spent)
  {
    hide MemoryManager.Space, Listed, MemoryManager.Everything;
    for i := 0 to |calls|
      invariant m.Valid() && old(m.pager.spent) <= m.pager.spent && m.Everything() == old(m.Everything())
      invariant m.pager.accepts ==> m.pager.spent == old(m.pager.spent)
    {
      match calls[i] {
        case Pages(order, attr) =>
          var _, _, _ := m.AllocPages(order, attr);
        case Nonlinear(size, attr) =>
          var _, _ := m.AllocNonlinearPages(size, attr);
        case Release(address) =>
          var _, _ := m.Free(address);
      }
    }
  }

  /** What validity means for two pages of any two regions, and for the physical memory manager. */
  lemma NoSharing(m: MemoryManager, j: nat, k: nat, u: nat, v: nat)
    requires m.Valid() && j < |m.entries| && k < |m.entries| && u in m.entries[j].pages && v in m.entries[k].pages &&
      (j != k || u != v)
    ensures m.entries[j].pages[u] != m.entries[k].pages[v]
    ensures m.entries[j].pages[u] !in m.pager.frames && m.entries[j].pages[u] !in m.pager.tables
    ensures m.entries[j].start >= HIGH_MEMORY_START_ADDRESS
    ensures m.pager.Translate(PageNo(m.entries[j].start) + u) == Some(Mapping(m.entries[j].pages[u], m.entries[j].attr))
  {
    hide PageNo, PagesIn, OnPages, Listed, Unblocked, PageManager.Valid, Walk, Covers;
    EntryFacts(m.entries, m.live, j);
    EntryFacts(m.entries, m.live, k);
    var x, y := PageNo(m.entries[j].start) + u, PageNo(m.entries[k].start) + v;
    WindowCovered(x);
    if j != k && x == y { DistinctRegions(m.entries, m.live, j, k, x); }
  }

  lemma DistinctRegions(es: seq<Entry>, live: map<nat, Mapping>, j: nat, k: nat, vp: nat)
    requires Listed(es, live) && j < |es| && k < |es| && j != k && Placed(es[j]) && Has(es[j], vp)
    ensures Placed(es[k]) && !Has(es[k], vp)
  {
    hide PageNo, PagesIn, OnPages, Tied;
    PagesApart(es[j], es[k], vp);
  }

  /** Regions and live pages are as before, and the same frames back no page; they may be tables, free or spent now. */
  ghost predicate Undone(es: seq<Entry>, es': seq<Entry>, live: map<nat, Mapping>, live': map<nat, Mapping>,
                         h: Holdings, h': Holdings) {
    es' == es && live' == live && Total(h') == Total(h)
  }

  /** Nowhere in the window is there room. */
  ghost predicate NoAddress(es: seq<Entry>, size: nat) { forall a: nat :: !Fits(es, size, WindowOf(AllocArea), a) }

  /** The region that is about to be filled. */
  lemma FitsPlaced(es: seq<Entry>, a: nat, size: nat, attr: Attr)
    requires Sorted(es) && AllPlaced(es) && size > 0 && size % PAGE == 0 && Fits(es, size, WindowOf(AllocArea), a)
    requires a == WindowOf(AllocArea).lo || exists k :: 0 <= k < |es| && a == es[k].end + 1
    ensures var e := Entry(a, a + size - 1, attr, map[]); Placed(e) && Clear(es, e) && Count(e) == size / PAGE
  {
    if a != WindowOf(AllocArea).lo {
      var k :| 0 <= k < |es| && a == es[k].end + 1;
      assert Placed(es[k]);
    }
  }

  /** `count` pages from `first` on the frames from `b` on. */
  function Added(live: map<nat, Mapping>, first: nat, b: nat, attr: Attr, count: nat): map<nat, Mapping>
  {
    if count == 0 then live
      else Added(live, first, b, attr, count - 1)[first + count - 1 := Mapping(b + count - 1, attr)]
  }

  function Run(b: nat, count: nat): map<nat, nat> {
    if count == 0 then map[] else Run(b, count - 1)[count - 1 := b + count - 1]
  }

  lemma {:induction false} AddedFacts(live: map<nat, Mapping>, first: nat, b: nat, attr: Attr, count: nat)
    requires forall vp :: vp in live ==> !InBlock(first, count, vp) && !InBlock(b, count, live[vp].frame)
    ensures forall vp :: vp in Added(live, first, b, attr, count) <==> vp in live || InBlock(first, count, vp)
    ensures forall vp :: vp in live ==> Added(live, first, b, attr, count)[vp] == live[vp]
    ensures forall vp: nat :: InBlock(first, count, vp) ==>
      Added(live, first, b, attr, count)[vp] == Mapping(b + (vp - first), attr)
  {
    if count > 0 {
      forall vp | vp in live ensures !InBlock(first, count - 1, vp) && !InBlock(b, count - 1, live[vp].frame) {
        assert !InBlock(first, count, vp) && !InBlock(b, count, live[vp].frame);
      }
      AddedFacts(live, first, b, attr, count - 1);
    }
  }

  lemma InsertedUpdate(es: seq<Entry>, k: nat, e: Entry, e': Entry)
    requires k <= |es|
    ensures |Inserted(es, k, e)| == |es| + 1 && Inserted(es, k, e)[k := e'] == Inserted(es, k, e')
  {
  }

  /** An empty region of `size` bytes was inserted at `k`. */
  ghost predicate Fresh(es: seq<Entry>, es': seq<Entry>, k: nat, size: nat, attr: Attr) {
    && k <= |es| && |es'| == |es| + 1 && es' == Inserted(es, k, es'[k])
    && es'[k].attr == attr && es'[k].pages == map[] && es'[k].end + 1 == es'[k].start + size
    && Placed(es'[k]) && Count(es'[k]) == size / PAGE && Clear(es, es'[k])
  }

  /** The pages of a fresh region are in the window and none is live. */
  lemma RegionReady(es: seq<Entry>, es': seq<Entry>, live: map<nat, Mapping>, k: nat, count: nat, attr: Attr)
    requires Listed(es, live) && Fresh(es, es', k, count * PAGE, attr) && (count * PAGE) / PAGE == count
    ensures Count(es'[k]) == count && Dropped(es', k) == es
    ensures forall vp: nat :: InBlock(PageNo(es'[k].start), count, vp) ==> InWindow(vp) && vp !in live
  {
    hide Listed, PageNo, PagesIn, OnPages, Clear, Inserted, Dropped;
    DroppedInserted(es, k, es'[k]);
    forall vp: nat | InBlock(PageNo(es'[k].start), count, vp) ensures InWindow(vp) && vp !in live {
      HasInWindow(es'[k], vp);
      ClearPages(es, live, es'[k], vp);
    }
  }

  lemma NoneLeft(frames: set<nat>)
    requires NoRun(frames, 1)
    ensures frames == {}
  {
    forall f | f in frames ensures false { OneBlock(f); }
  }

  lemma OneBlock(f: nat)
    ensures Block(f, 1) == {f}
  {
    assert InBlock(f, 1, f);
  }

  /** `n` is the least number of pages, at least one, that hold `size` bytes. */
  ghost predicate LeastPages(n: nat, size: nat) {
    n > 0 && size <= n * PAGE && forall m: nat :: m > 0 && size <= m * PAGE ==> n <= m
  }

  /** There is no address for the pages of `size` bytes, or there are at most five free frames for each of them. */
  ghost predicate Scarce(es: seq<Entry>, frames: set<nat>, size: nat) {
    forall n: nat :: LeastPages(n, size) ==> NoAddress(es, n * PAGE) || |frames| <= 5 * n
  }

  lemma LeastOne(size: nat)
    requires size <= PAGE
    ensures LeastPages(1, size) && forall n: nat :: LeastPages(n, size) ==> n == 1
  {
    assert size <= 1 * PAGE;
  }

  lemma OneFrame(h: Holdings, t: set<nat>, f: nat)
    requires t == Total(h) - Block(f, 1) && Block(f, 1) <= h.free
    ensures Block(f, 1) == {f} && t + {f} == Total(h)
  {
    OneBlock(f);
  }

  lemma NextPage(es: seq<Entry>, live: map<nat, Mapping>, k: nat, i: nat)
    requires Listed(es, live) && k < |es| && Placed(es[k]) && i < Count(es[k]) && i !in es[k].pages
    ensures InWindow(PageNo(es[k].start) + i) && PageNo(es[k].start) + i !in live
  {
    hide Listed, PageNo, PagesIn, OnPages;
    Unrecorded(es, live, k, i);
    HasInWindow(es[k], PageNo(es[k].start) + i);
  }

  lemma WithoutAdded(live: map<nat, Mapping>, first: nat, count: nat, i: nat, m: Mapping)
    requires i < count
    ensures Without(live[first + i := m], first, count) == Without(live, first, count)
  {
  }

  lemma ValuesAdded(pages: map<nat, nat>, i: nat, frame: nat)
    requires i !in pages
    ensures pages[i := frame].Values == pages.Values + {frame}
  {
    forall f | f in pages.Values ensures f in pages[i := frame].Values {
      var m :| m in pages && pages[m] == f;
      assert pages[i := frame][m] == f;
    }
    assert pages[i := frame][i] == frame;
  }

  lemma SinglePage(b: nat, h: Holdings, t: set<nat>, es: seq<Entry>, live: map<nat, Mapping>, k: nat)
    requires k < |es| && es[k].pages == Run(b, Pow2(0)) && Block(b, Pow2(0)) <= h.free &&
      t == Total(h) - Block(b, Pow2(0))
    requires Listed(es, live) && es[k].end + 1 == es[k].start + Pow2(0) * PAGE
    ensures Placed(es[k]) && Count(es[k]) == 1 && (forall m: nat :: m in es[k].pages <==> m < 1) &&
      t + es[k].pages.Values == Total(h)
  {
    OneFrame(h, t, b);
    var none: map<nat, nat> := map[];
    ValuesAdded(none, 0, b);
    assert Run(b, 1) == none[0 := b] && none.Values == {};
    BoundFacts(es, live, k);
  }

  lemma Rounded(size: nat, rounded: nat)
    requires size > PAGE && rounded == ((size - 1) / PAGE) * PAGE + PAGE
    ensures rounded % PAGE == 0 && size <= rounded < size + PAGE && (rounded / PAGE) * PAGE == rounded && rounded > 0
    ensures LeastPages(rounded / PAGE, size) && forall n: nat :: LeastPages(n, size) ==> n == rounded / PAGE
  {
    var k := rounded / PAGE;
    assert size <= k * PAGE;
    forall m: nat | m > 0 && size <= m * PAGE ensures k <= m { }
  }

  lemma ScarceNow(es: seq<Entry>, frames: set<nat>, size: nat, rounded: nat)
    requires size > PAGE && rounded == ((size - 1) / PAGE) * PAGE + PAGE
    requires NoAddress(es, rounded) || |frames| <= 5 * (rounded / PAGE)
    ensures Scarce(es, frames, size)
  {
    hide LeastPages, NoAddress;
    Rounded(size, rounded);
  }

  lemma WithoutNone(live: map<nat, Mapping>, first: nat, count: nat)
    requires forall vp: nat :: InBlock(first, count, vp) ==> vp !in live
    ensures Without(live, first, count) == live
  {
    assert forall vp: nat {:trigger InBlock(first, count, vp)} :: InBlock(first, count, vp) <==>
      first <= vp < first + count;
  }

  lemma TotalBack(h: Holdings, t: set<nat>, fs: set<nat>)
    requires t == Total(h) - fs && fs <= h.free
    ensures t + fs == Total(h)
  {
  }

  lemma BlockFacts(b: nat, count: nat)
    ensures forall f :: f in Block(b, count) <==> InBlock(b, count, f)
  {
  }

  lemma AddedStep(live: map<nat, Mapping>, first: nat, b: nat, attr: Attr, i: nat)
    ensures Added(live, first, b, attr, 0) == live
    ensures Added(live, first, b, attr, i + 1) == Added(live, first, b, attr, i)[first + i := Mapping(b + i, attr)]
  {
  }

  /** The next page is free and the next frame of the run is still loose. */
  lemma NextFrame(live0: map<nat, Mapping>, live: map<nat, Mapping>, first: nat, b: nat, count: nat, attr: Attr, i: nat)
    requires forall vp :: vp in live0 ==> !InBlock(first, count, vp) && !InBlock(b, count, live0[vp].frame)
    requires i < count && live == Added(live0, first, b, attr, i)
    ensures forall vp :: vp in live0 ==> !InBlock(first, i, vp) && !InBlock(b, i, live0[vp].frame)
    ensures InBlock(first, count, first + i) && InBlock(b, count, b + i)
    ensures first + i !in live && forall vp :: vp in live ==> live[vp].frame != b + i
  {
    hide Added;
    forall vp | vp in live0 ensures !InBlock(first, i, vp) && !InBlock(b, i, live0[vp].frame) {
      assert !InBlock(first, count, vp) && !InBlock(b, count, live0[vp].frame);
    }
    AddedFacts(live0, first, b, attr, i);
    forall vp | vp in live ensures vp != first + i && live[vp].frame != b + i {
      assert vp in live0 || InBlock(first, i, vp);
      assert vp in live0 ==> !InBlock(first, count, vp) && !InBlock(b, count, live0[vp].frame);
    }
  }

  lemma AddedWithout(live: map<nat, Mapping>, first: nat, b: nat, attr: Attr, count: nat)
    requires forall vp :: vp in live ==> !InBlock(first, count, vp) && !InBlock(b, count, live[vp].frame)
    ensures Without(Added(live, first, b, attr, count), first, count) == live
  {
    hide Added;
    AddedFacts(live, first, b, attr, count);
    assert forall vp: nat {:trigger InBlock(first, count, vp)} :: InBlock(first, count, vp) <==>
      first <= vp < first + count;
  }

  lemma {:induction false} TiedRun(es: seq<Entry>, live: map<nat, Mapping>, k: nat, b: nat, i: nat)
    requires Listed(es, live) && k < |es| && es[k].pages == map[] && Placed(es[k]) && i <= Count(es[k])
    ensures Listed(es[k := Entry(es[k].start, es[k].end, es[k].attr, Run(b, i))],
                   Added(live, PageNo(es[k].start), b, es[k].attr, i))
  {
    hide Listed, PageNo, PagesIn, OnPages;
    if i == 0 {
      assert es[k := Entry(es[k].start, es[k].end, es[k].attr, map[])] == es;
    } else {
      TiedRun(es, live, k, b, i - 1);
      var es' := es[k := Entry(es[k].start, es[k].end, es[k].attr, Run(b, i - 1))];
      TiedAdd(es', Added(live, PageNo(es[k].start), b, es[k].attr, i - 1), k, i - 1, b + i - 1);
      assert es'[k := Plus(es'[k], i - 1, b + i - 1)] == es[k := Entry(es[k].start, es[k].end, es[k].attr, Run(b, i))];
    }
  }

  lemma BoundFacts(es: seq<Entry>, live: map<nat, Mapping>, k: nat)
    requires Listed(es, live) && k < |es|
    ensures Placed(es[k]) && forall i :: i in es[k].pages ==> i < Count(es[k])
  {
    assert EntryTied(es[k], live);
  }

  lemma Unrecorded(es: seq<Entry>, live: map<nat, Mapping>, k: nat, i: nat)
    requires Listed(es, live) && k < |es| && Placed(es[k]) && i !in es[k].pages && i < Count(es[k])
    ensures PageNo(es[k].start) + i !in live
  {
    assert EntryTied(es[k], live);
    assert PageTied(es[k], live, i);
  }

  lemma EntryFacts(es: seq<Entry>, live: map<nat, Mapping>, k: nat)
    requires Listed(es, live) && k < |es|
    ensures AllPlaced(es) && Placed(es[k])
    ensures forall i :: i in es[k].pages ==>
      i < Count(es[k]) && PageNo(es[k].start) + i in live &&
        live[PageNo(es[k].start) + i] == Mapping(es[k].pages[i], es[k].attr)
    ensures forall i: nat {:trigger i in es[k].pages} :: i < Count(es[k]) && PageNo(es[k].start) + i in live ==>
      i in es[k].pages
  {
    hide PageNo, PagesIn, Sorted, Owned;
    var e := es[k];
    assert EntryTied(e, live);
    forall i | i in e.pages
      ensures i < Count(e) && PageNo(e.start) + i in live && live[PageNo(e.start) + i] == Mapping(e.pages[i], e.attr)
    {
      assert PageTied(e, live, i);
    }
    forall i: nat | i < Count(e) && PageNo(e.start) + i in live ensures i in e.pages { assert PageTied(e, live, i); }
  }

  /** No `count` consecutive frames are free. */
  ghost predicate NoRun(frames: set<nat>, count: nat) { forall f :: f in frames ==> !(Block(f, count) <= frames) }

  lemma {:induction false} BlockSize(first: nat, count: nat)
    ensures |Block(first, count)| <= count
  {
    if count > 0 {
      BlockSize(first, count - 1);
      assert Block(first, count) == Block(first, count - 1) + {first + count - 1} by {
        forall f ensures f in Block(first, count) <==> f in Block(first, count - 1) + {first + count - 1} {
          assert f in Block(first, count) <==> InBlock(first, count, f);
          assert f in Block(first, count - 1) <==> InBlock(first, count - 1, f);
        }
      }
    } else {
      assert Block(first, 0) == {} by {
        forall f ensures f !in Block(first, 0) { assert f in Block(first, 0) <==> InBlock(first, 0, f); }
      }
    }
  }

  lemma RemoveAtMost(a: set<nat>, b: set<nat>)
    ensures |a - b| + |b| >= |a|
  {
    assert a == (a - b) + (a * b);
    assert |a * b| <= |b| by { assert b == (a * b) + (b - a); }
  }

  predicate InBlock(first: nat, count: nat, f: nat) { first <= f < first + count }

  function Block(first: nat, count: nat): set<nat> { set f: nat | f < first + count && InBlock(first, count, f) }

  /** The frames recorded for the first `i` pages, and the record and the live pages without them. */
  function Done(pages: map<nat, nat>, i: nat): set<nat> { set m | m in pages && m < i :: pages[m] }

  function Rest(pages: map<nat, nat>, i: nat): map<nat, nat> { map m | m in pages && m >= i :: pages[m] }

  function Without(live: map<nat, Mapping>, first: nat, i: nat): map<nat, Mapping> {
    map vp | vp in live && !(first <= vp < first + i) :: live[vp]
  }

  lemma DoneStep(pages: map<nat, nat>, i: nat)
    ensures Done(pages, i + 1) == if i in pages then Done(pages, i) + {pages[i]} else Done(pages, i)
    ensures i in Rest(pages, i) <==> i in pages
    ensures i in pages ==> Rest(pages, i)[i] == pages[i]
    ensures Rest(pages, i + 1) == if i in pages then Rest(pages, i) - {i} else Rest(pages, i)
  {
  }

  lemma WithoutStep(live: map<nat, Mapping>, first: nat, i: nat)
    ensures Without(live, first, i + 1) == Without(live, first, i) - {first + i}
    ensures first + i in live <==> first + i in Without(live, first, i)
  {
  }

  lemma DoneNone(pages: map<nat, nat>, live: map<nat, Mapping>, first: nat)
    ensures Done(pages, 0) == {} && Rest(pages, 0) == pages && Without(live, first, 0) == live
  {
  }

  lemma DoneAll(pages: map<nat, nat>, n: nat)
    requires forall m :: m in pages ==> m < n
    ensures Done(pages, n) == pages.Values && Rest(pages, n) == map[]
  {
  }

  /** The frames of the entry pool count as spent. */
  lemma AccountedPooled(h: Holdings, h': Holdings, pool: set<nat>)
    requires Accounted(h, h') && (h.spent + pool) !! h.free && (h.spent + pool) !! h.tables
    ensures Accounted(Holdings(h.tables, h.free, h.spent + pool), Holdings(h'.tables, h'.free, h'.spent + pool))
  {
  }

  lemma SeparateKept(live: map<nat, Mapping>, h: Holdings, h': Holdings)
    requires Separate(live, h) && Total(h') == Total(h)
    requires h'.spent !! h'.free && h'.spent !! h'.tables && h'.free !! h'.tables
    ensures Separate(live, h')
  {
    forall vp | vp in live ensures live[vp].frame !in Total(h') { assert live[vp].frame !in Total(h); }
  }

  lemma OutsideFixed(fixed: map<nat, Mapping>, vp: nat)
    requires Grounded(fixed, 3) && InWindow(vp)
    ensures vp !in fixed
  {
  }

  /** Tables that grew at the cost of the free frames. */
  lemma SeparateGrown(live: map<nat, Mapping>, h: Holdings, h': Holdings)
    requires Separate(live, h) && h'.tables + h'.free == h.tables + h.free && h'.spent == h.spent &&
      h'.free !! h'.tables
    ensures Separate(live, h') && Total(h') == Total(h)
  {
    forall vp | vp in live ensures live[vp].frame !in h'.tables + h'.free {
      assert live[vp].frame !in h.tables + h.free;
    }
  }

  lemma SeparateAdd(live: map<nat, Mapping>, h: Holdings, vp: nat, m: Mapping)
    requires Separate(live, h) && m.frame !in Total(h) && forall v :: v in live ==> live[v].frame != m.frame
    ensures Separate(live[vp := m], h)
  {
  }

  lemma RootThere(pager: PageManager)
    requires pager.Valid()
    ensures pager.root in pager.tables && pager.frames !! pager.tables.Keys
  {
  }

  lemma UnblockedKept(pager: PageManager, t: Tables)
    requires pager.top == 3 && Unblocked(t, pager.root, 3) && pager.NoNewBlocks(t)
    ensures Unblocked(pager.tables, pager.root, 3)
  {
    hide Blocked;
    forall vp: nat | InWindow(vp) ensures !Blocked(pager.tables, pager.root, 3, vp, false) { WindowCovered(vp); }
  }

  lemma WindowOpen(t: Tables, root: nat, vp: nat)
    requires Unblocked(t, root, 3) && InWindow(vp)
    ensures !Blocked(t, root, 3, vp, false)
  {
  }

  lemma LiveByPage(t: Tables, root: nat, live: map<nat, Mapping>, fixed: map<nat, Mapping>, vp: nat)
    requires Agrees(t, root, 3, live, fixed) && Unblocked(t, root, 3) && vp in live && InWindow(vp)
    ensures !Blocked(t, root, 3, vp, true)
  {
    hide Blocked, Walk;
    WindowCovered(vp);
    MappedByPage(t, root, 3, vp);
  }
}
