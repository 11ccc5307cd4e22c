/** The physical memory manager (src/kernel/memory_manager/physical_memory_manager.rs):
    one set of nodes threaded twice, as an address-ordered list of free ranges and as
    twelve size-class lists, updated in place. */
module PhysicalMemory {
  import opened Collections
  import opened DataType
  import opened Ranges
  import opened Alignment
  import opened FreeCondition

  const NUM_OF_FREE_LIST: nat := 12

  datatype MemoryError = InvalidSize | InvalidAddress | AddressNotAvailable | EntryPoolRunOut

  datatype Result<T> = Ok(value: T) | Err(error: MemoryError)

  /** The size class of a range. */
  function SizeToPageOrder(size: nat): (o: nat)
    ensures o < NUM_OF_FREE_LIST
  {
    PageOrderOf(size, NUM_OF_FREE_LIST - 1)
  }

  /** size_to_page_order, through the counting loop. */
  method PageOrderOfSize(size: nat) returns (o: nat)
    ensures o == SizeToPageOrder(size)
  {
    o := PageOrderFromOffset(size, NUM_OF_FREE_LIST - 1);
  }

  class MemoryEntry {
    var previous: MemoryEntry?
    var next: MemoryEntry?
    var listPrev: MemoryEntry?
    var listNext: MemoryEntry?
    var start: int
    var end: int
    var enabled: bool
    /** The free list this entry is chained on, or -1. */
    ghost var order: int

    function Size(): int
      reads this`start, this`end
    {
      SizeOf(start, end)
    }

    function AsRange(): Range
      reads this`start, this`end
    {
      Range(start, end)
    }

    method SetRange(s: int, e: int)
      requires s < e
      modifies this`start, this`end
      ensures start == s && end == e
    {
      start := s;
      end := e;
    }
  }

  ghost predicate Distinct<T>(s: seq<T>) {
    forall i, j :: 0 <= i < j < |s| ==> s[i] != s[j]
  }

  /** `s` is a doubly linked free list with the given head. */
  ghost predicate Chained(s: seq<MemoryEntry>, head: MemoryEntry?)
    reads s`listNext, s`listPrev
  {
    && Distinct(s)
    && head == (if |s| == 0 then null else s[0])
    && (forall i {:trigger s[i].listNext} :: 0 <= i < |s| ==>
         s[i].listNext == if i + 1 < |s| then s[i + 1] else null)
    && (forall i {:trigger s[i].listPrev} :: 0 <= i < |s| ==>
         s[i].listPrev == if i > 0 then s[i - 1] else null)
  }

  /** MemoryEntry::unchain_from_freelist, with the head moved on when it was `entry`. */
  method Unlink(entry: MemoryEntry, head: MemoryEntry?, ghost l: seq<MemoryEntry>, ghost i: nat)
    returns (newHead: MemoryEntry?)
    requires Chained(l, head) && i < |l| && l[i] == entry
    modifies l`listNext, l`listPrev
    ensures Chained(Dropped(l, i), newHead)
    ensures entry.listNext == null && entry.listPrev == null
  {
    newHead := if head == entry then entry.listNext else head;
    if entry.listPrev != null {
      assert entry.listPrev == l[i - 1];
      entry.listPrev.listNext := entry.listNext;
    }
    if entry.listNext != null {
      assert entry.listNext == l[i + 1];
      entry.listNext.listPrev := entry.listPrev;
    }
    entry.listNext := null;
    entry.listPrev := null;
    DroppedAt(l, i);
    hide Dropped;
  }

  /** `entry` becomes the neighbour after `l[p]`. */
  method SpliceAfter(listEntry: MemoryEntry, entry: MemoryEntry, head: MemoryEntry?, ghost l: seq<MemoryEntry>,
                     ghost p: nat)
    requires Chained(l, head) && p < |l| && l[p] == listEntry
    requires entry !in l && entry.listNext == null && entry.listPrev == null
    modifies l`listNext, l`listPrev, entry`listNext, entry`listPrev
    ensures Chained(Inserted(l, p + 1, entry), head)
  {
    var nextEntry := listEntry.listNext;
    listEntry.listNext := entry;
    entry.listPrev := listEntry;
    if nextEntry != null {
      assert nextEntry == l[p + 1];
      entry.listNext := nextEntry;
      nextEntry.listPrev := entry;
    }
    InsertedAt(l, p + 1, entry);
    hide Inserted;
  }

  method SpliceHead(entry: MemoryEntry, head: MemoryEntry, ghost l: seq<MemoryEntry>)
    requires Chained(l, head)
    requires entry !in l && entry.listNext == null && entry.listPrev == null
    modifies l`listPrev, entry`listNext
    ensures Chained(Inserted(l, 0, entry), entry)
  {
    head.listPrev := entry;
    entry.listNext := head;
    InsertedAt(l, 0, entry);
    hide Inserted;
  }

  /** The walk of chain_entry_to_free_list: `entry` goes before the first entry that is not smaller. */
  method Link(entry: MemoryEntry, head: MemoryEntry?, ghost l: seq<MemoryEntry>)
    returns (newHead: MemoryEntry, ghost pos: nat)
    requires Chained(l, head)
    requires entry !in l && entry.listNext == null && entry.listPrev == null
    modifies l`listNext, l`listPrev, entry`listNext, entry`listPrev
    ensures pos <= |l| && Chained(Inserted(l, pos, entry), newHead)
    ensures forall j :: 0 <= j < pos ==> l[j].Size() < entry.Size()
    ensures pos < |l| ==> entry.Size() <= l[pos].Size()
  {
    if head == null {
      assert Inserted(l, 0, entry) == [entry];
      return entry, 0;
    }
    if head.Size() >= entry.Size() {
      SpliceHead(entry, head, l);
      return entry, 0;
    }
    var listEntry := head;
    ghost var p := 0;
    while listEntry.listNext != null && listEntry.listNext.Size() < entry.Size()
      invariant p < |l| && l[p] == listEntry && Chained(l, head)
      invariant forall j :: 0 <= j <= p ==> l[j].Size() < entry.Size()
      decreases |l| - p
    {
      assert listEntry.listNext == l[p + 1];
      listEntry := listEntry.listNext;
      p := p + 1;
    }
    SpliceAfter(listEntry, entry, head, l, p);
    return head, p + 1;
  }

  /** Each list is doubly linked from its head, and its entries are among `nodes`. */
  ghost predicate AllChained(lists: seq<seq<MemoryEntry>>, heads: seq<MemoryEntry?>, nodes: set<MemoryEntry>)
    reads nodes`listNext, nodes`listPrev
  {
    && |heads| == NUM_OF_FREE_LIST == |lists|
    && (forall k, i :: 0 <= k < |lists| && 0 <= i < |lists[k]| ==> lists[k][i] in nodes)
    && (forall k :: 0 <= k < |lists| ==> Chained(lists[k], heads[k]))
  }

  lemma ListReplaced(ll: seq<seq<MemoryEntry>>, heads: seq<MemoryEntry?>, nodes: set<MemoryEntry>,
                     k: nat, l: seq<MemoryEntry>, pos: nat, e: MemoryEntry, h: MemoryEntry?)
    requires |heads| == NUM_OF_FREE_LIST == |ll| && k < |ll| && pos <= |l| && e in nodes
    requires forall q, j :: 0 <= q < |ll| && 0 <= j < |ll[q]| ==> ll[q][j] in nodes
    requires forall j :: 0 <= j < |l| ==> l[j] in nodes
    requires forall q :: 0 <= q < |ll| && q != k ==> Chained(ll[q], heads[q])
    requires Chained(Inserted(l, pos, e), h)
    ensures AllChained(ll[k := Inserted(l, pos, e)], heads[k := h], nodes)
  {
    hide Chained;
    InsertedAt(l, pos, e);
  }

  /** `order` says which list an entry is on. */
  ghost predicate OrdersMatch(lists: seq<seq<MemoryEntry>>, nodes: set<MemoryEntry>)
    reads nodes`order
  {
    && (forall k, i :: 0 <= k < |lists| && 0 <= i < |lists[k]| ==> lists[k][i] in nodes && lists[k][i].order == k)
    && (forall e :: e in nodes && e.order != -1 ==> 0 <= e.order < |lists| && e in lists[e.order])
  }

  /** Apart from the entries in `except`, each list ascends in size and holds its own size class. */
  ghost predicate Ascending(lists: seq<seq<MemoryEntry>>, nodes: set<MemoryEntry>, except: set<MemoryEntry>)
    reads nodes`start, nodes`end
  {
    && (forall k, i :: 0 <= k < |lists| && 0 <= i < |lists[k]| ==> lists[k][i] in nodes)
    && (forall k, i, j :: 0 <= k < |lists| && 0 <= i < j < |lists[k]| ==>
         lists[k][i] in except || lists[k][j] in except || lists[k][i].Size() <= lists[k][j].Size())
    && (forall k, i :: 0 <= k < |lists| && 0 <= i < |lists[k]| ==>
         lists[k][i] in except || (0 <= lists[k][i].Size() && SizeToPageOrder(lists[k][i].Size()) == k))
  }

  lemma AscendingWeaken(ll: seq<seq<MemoryEntry>>, nodes: set<MemoryEntry>, x: set<MemoryEntry>, y: set<MemoryEntry>)
    requires Ascending(ll, nodes, x) && x <= y
    ensures Ascending(ll, nodes, y)
  {
  }

  lemma DroppedAscending(ll: seq<seq<MemoryEntry>>, nodes: set<MemoryEntry>, x: set<MemoryEntry>, k: nat, i: nat)
    requires k < |ll| && i < |ll[k]| && Distinct(ll[k])
    requires forall q, j :: 0 <= q < |ll| && 0 <= j < |ll[q]| && ll[q][j] == ll[k][i] ==> q == k
    requires Ascending(ll, nodes, x)
    ensures Ascending(ll[k := Dropped(ll[k], i)], nodes, x - {ll[k][i]})
  {
    var d := Dropped(ll[k], i);
    assert forall j :: 0 <= j < |d| ==> d[j] == ll[k][if j < i then j else j + 1];
  }

  lemma InsertedAscending(ll: seq<seq<MemoryEntry>>, nodes: set<MemoryEntry>, x: set<MemoryEntry>,
                          k: nat, pos: nat, e: MemoryEntry)
    requires k < |ll| && pos <= |ll[k]| && e in nodes
    requires Ascending(ll, nodes, x)
    ensures Ascending(ll[k := Inserted(ll[k], pos, e)], nodes, x + {e})
  {
    var m := Inserted(ll[k], pos, e);
    assert forall j :: 0 <= j < |m| ==> m[j] == if j < pos then ll[k][j] else if j == pos then e else ll[k][j - 1];
  }

  lemma InsertedInPlace(ll: seq<seq<MemoryEntry>>, nodes: set<MemoryEntry>, k: nat, pos: nat, e: MemoryEntry)
    requires k < |ll| && pos <= |ll[k]| && e in nodes
    requires Ascending(ll, nodes, {})
    requires 0 <= e.Size() && SizeToPageOrder(e.Size()) == k
    requires forall j :: 0 <= j < pos ==> ll[k][j].Size() < e.Size()
    requires pos < |ll[k]| ==> e.Size() <= ll[k][pos].Size()
    ensures Ascending(ll[k := Inserted(ll[k], pos, e)], nodes, {})
  {
    var m := Inserted(ll[k], pos, e);
    assert forall j :: 0 <= j < |m| ==> m[j] == if j < pos then ll[k][j] else if j == pos then e else ll[k][j - 1];
    forall i, j | 0 <= i < j < |m|
      ensures m[i].Size() <= m[j].Size()
    {
      if i == pos { assert ll[k][pos].Size() <= ll[k][j - 1].Size(); }
    }
  }

  // ---------------------------------------------------------------- the address list

  /** `s` is a doubly linked address list that starts at `first`. */
  ghost predicate AddressLinked(s: seq<MemoryEntry>, first: MemoryEntry?)
    reads s`next, s`previous
  {
    && Distinct(s)
    && first == (if |s| == 0 then null else s[0])
    && (forall i {:trigger s[i].next} :: 0 <= i < |s| ==> s[i].next == if i + 1 < |s| then s[i + 1] else null)
    && (forall i {:trigger s[i].previous} :: 0 <= i < |s| ==> s[i].previous == if i > 0 then s[i - 1] else null)
  }

  lemma LinkedDistinct(s: seq<MemoryEntry>, first: MemoryEntry?)
    requires AddressLinked(s, first)
    ensures Distinct(s)
  {
  }

  /** MemoryEntry::chain_after_me on an entry that has a successor or not, as both callers use it. */
  method ChainAfter(entry: MemoryEntry, newEntry: MemoryEntry, first: MemoryEntry?, ghost s: seq<MemoryEntry>,
                    ghost i: nat)
    requires AddressLinked(s, first) && i < |s| && s[i] == entry
    requires newEntry !in s && newEntry.next == null
    modifies s`next, s`previous, newEntry`next, newEntry`previous
    ensures AddressLinked(Inserted(s, i + 1, newEntry), first)
  {
    var next := entry.next;
    if next != null {
      assert next == s[i + 1];
      newEntry.next := next;
      next.previous := newEntry;
    }
    entry.next := newEntry;
    newEntry.previous := entry;
    InsertedAt(s, i + 1, newEntry);
    hide Inserted;
  }

  /** The new first entry of the address list. */
  method ChainFirst(newEntry: MemoryEntry, first: MemoryEntry, ghost s: seq<MemoryEntry>)
    requires AddressLinked(s, first)
    requires newEntry !in s && newEntry.previous == null
    modifies s`previous, newEntry`next
    ensures AddressLinked(Inserted(s, 0, newEntry), newEntry)
  {
    newEntry.next := first;
    first.previous := newEntry;
    InsertedAt(s, 0, newEntry);
    hide Inserted;
  }

  /** MemoryEntry::delete, with `first` moved on by the caller when it was `entry`. */
  method Delete(entry: MemoryEntry, first: MemoryEntry?, ghost s: seq<MemoryEntry>, ghost i: nat)
    requires i < |s| && s[i] == entry && AddressLinked(s, s[0])
    requires first == if i > 0 then s[0] else if |s| > 1 then s[1] else null
    modifies s`next, s`previous, entry`enabled
    ensures AddressLinked(Dropped(s, i), first)
    ensures !entry.enabled && entry.next == null && entry.previous == null
  {
    entry.enabled := false;
    var previous, next := entry.previous, entry.next;
    if previous != null {
      assert previous == s[i - 1];
      previous.next := next;
      if next != null {
        assert next == s[i + 1];
        next.previous := previous;
      }
    } else if next != null {
      assert next == s[i + 1];
      next.previous := null;
    }
    entry.previous := null;
    entry.next := null;
    DroppedAt(s, i);
    hide Dropped;
  }

  /** `rs` are the ranges of the entries `s`. */
  ghost predicate RangesMatch(s: seq<MemoryEntry>, rs: seq<Range>)
    reads s`start, s`end
  {
    |rs| == |s| && forall i :: 0 <= i < |s| ==> rs[i] == s[i].AsRange()
  }

  lemma RangesInserted(s: seq<MemoryEntry>, rs: seq<Range>, i: nat, e: MemoryEntry)
    requires RangesMatch(s, rs) && i <= |s|
    ensures |rs| == |s|
    ensures RangesMatch(Inserted(s, i, e), Inserted(rs, i, e.AsRange()))
  {
    InsertedAt(s, i, e);
    InsertedAt(rs, i, e.AsRange());
  }

  /** Except for `loose` entries, which are on no list, every node is either in the address list
      and chained on a free list, or in the pool. */
  ghost predicate Populated(nodes: set<MemoryEntry>, entries: seq<MemoryEntry>, pool: seq<MemoryEntry>,
                            loose: set<MemoryEntry>)
    reads nodes`order, nodes`enabled
  {
    && (forall i :: 0 <= i < |entries| ==> entries[i] in nodes && entries[i].order != -1 && entries[i].enabled)
    && (forall i :: 0 <= i < |pool| ==> pool[i] in nodes && pool[i].order == -1 && pool[i] !in loose)
    && Distinct(pool)
    && (forall e :: e in nodes && e !in loose ==> if e.order != -1 then e in entries else e in pool)
    && (forall e :: e in loose ==> e in nodes && e.order == -1)
  }

  /** Taking a block out of entry `i` is one of: drop the entry, move its start, move its end, split it. */
  lemma CarveCases(rs: seq<Range>, i: nat, s: int, e: int)
    requires i < |rs| && rs[i].Contains(s, e) && s <= e
    ensures rs[i] == Range(s, e) ==> Carve(rs, i, s, e) == Dropped(rs, i)
    ensures rs[i].start == s && e < rs[i].end ==> Carve(rs, i, s, e) == rs[i := Range(e + 1, rs[i].end)]
    ensures rs[i].start < s && e == rs[i].end ==> Carve(rs, i, s, e) == rs[i := Range(rs[i].start, s - 1)]
    ensures rs[i].start < s && e < rs[i].end ==>
              Carve(rs, i, s, e) == Inserted(rs[i := Range(rs[i].start, s - 1)], i + 1, Range(e + 1, rs[i].end))
  {
  }

  /** The block can be asked of `rs`: where it starts inside an entry, it lies in that entry and leaves
      no single byte; or it starts at the entry's last byte, where longer blocks are refused. */
  ghost predicate Takable(rs: seq<Range>, s: int, e: int) {
    forall i :: 0 <= i < |rs| && rs[i].start <= s <= rs[i].end ==>
      || (rs[i].Contains(s, e) && CleanCut(rs[i], s, e))
      || (rs[i].start < s == rs[i].end && e != s)
  }

  ghost predicate StartsIn(rs: seq<Range>, i: nat, s: int) {
    i < |rs| && rs[i].start <= s <= rs[i].end
  }

  /** Why define_used_memory refuses a block of `size` bytes at `s`, or None if it takes it. */
  ghost function Refusal(rs: seq<Range>, poolEmpty: bool, free: int, s: int, size: nat): Option<MemoryError> {
    var e := EndAddress(s, size);
    if size == 0 || free < size then Some(InvalidSize)
    else if i: nat :| StartsIn(rs, i, s) then
      if rs[i].start < s == rs[i].end && size != 1 then Some(InvalidAddress)
      else if |rs| == 1 && rs[0] == Range(s, e) then Some(AddressNotAvailable)
      else if poolEmpty && rs[i].start < s && e < rs[i].end then Some(EntryPoolRunOut)
      else None
    else Some(InvalidAddress)
  }

  lemma RefusalAt(rs: seq<Range>, poolEmpty: bool, free: int, s: int, size: nat, i: nat)
    requires Coalesced(rs) && StartsIn(rs, i, s) && 0 < size <= free
    ensures Refusal(rs, poolEmpty, free, s, size) ==
            if rs[i].start < s == rs[i].end && size != 1 then Some(InvalidAddress)
            else if |rs| == 1 && rs[0] == Range(s, EndAddress(s, size)) then Some(AddressNotAvailable)
            else if poolEmpty && rs[i].start < s && EndAddress(s, size) < rs[i].end then Some(EntryPoolRunOut)
            else None
  {
    assert forall j: nat :: StartsIn(rs, j, s) ==> j == i;
  }

  /** A block that an entry holds cleanly is taken, unless it has to be split off with an empty pool. */
  lemma CleanBlock(rs: seq<Range>, j: nat, poolEmpty: bool, s: int, size: nat)
    requires Coalesced(rs) && j < |rs| && rs[j].Contains(s, EndAddress(s, size))
    requires CleanCut(rs[j], s, EndAddress(s, size)) && 0 < size < Total(rs)
    ensures Takable(rs, s, EndAddress(s, size))
    ensures Refusal(rs, poolEmpty, Total(rs), s, size) ==
            if poolEmpty && rs[j].start < s && EndAddress(s, size) < rs[j].end then Some(EntryPoolRunOut) else None
  {
    var e := EndAddress(s, size);
    assert StartsIn(rs, j, s);
    assert forall i: nat :: StartsIn(rs, i, s) ==> i == j;
    forall i | 0 <= i < |rs| && rs[i].start <= s <= rs[i].end
      ensures rs[i].Contains(s, e) && CleanCut(rs[i], s, e)
    {
      assert StartsIn(rs, i, s);
    }
    if rs == [Range(s, e)] {
      TotalOne(Range(s, e));
    }
    RefusalAt(rs, poolEmpty, Total(rs), s, size, j);
  }

  lemma HeldBy(rs: seq<Range>, j: nat, s: nat, size: nat, order: nat)
    requires j < |rs| && rs[j].Contains(s, EndAddress(s, size)) && Aligned(s, Pow2(order))
    ensures CanHold(rs[j], size, order)
  {
  }

  lemma TakenFrom(rs: seq<Range>, i: nat, j: nat, s: int, e: int)
    requires Coalesced(rs) && i < |rs| && j < |rs| && s <= e && rs[i].Contains(s, e) && rs[j].Contains(s, e)
    ensures i == j
  {
  }

  /** Giving a block back is one of: join both neighbours, grow one of them, or add an entry. */
  lemma MergeCases(rs: seq<Range>, i: nat, s: int, e: int)
    requires Coalesced(rs) && Slot(rs, i, s, e)
    ensures var left := i > 0 && rs[i - 1].end + 1 == s;
      var right := i < |rs| && rs[i].start == e + 1;
      Merge(rs, i, s, e) ==
        if left && right then Dropped(rs[i - 1 := Range(rs[i - 1].start, rs[i].end)], i)
        else if left then rs[i - 1 := Range(rs[i - 1].start, e)]
        else if right then rs[i := Range(s, rs[i].end)]
        else Inserted(rs, i, Range(s, e))
  {
  }

  ghost predicate Touches(rs: seq<Range>, i: nat, s: int, e: int) {
    (0 < i <= |rs| && rs[i - 1].end + 1 == s) || (i < |rs| && rs[i].start == e + 1)
  }

  lemma SettledSlot(rs: seq<Range>, s: int, e: int) returns (i: nat)
    requires Coalesced(rs) && rs != [] && s <= e && CanFree(rs, s, e) && WideAfter(rs, s, e)
    requires Step(rs, s, e).Done? && Step(rs, s, e).outcome.Freed?
    ensures Slot(rs, i, s, e) && Wide(Merge(rs, i, s, e)) && PreviousIndex(rs, s) == i - 1
    ensures FreeEffect(rs, s, e) == Freed(Merge(rs, i, s, e), SizeOf(s, e))
    ensures |Merge(rs, i, s, e)| > |rs| <==> !Touches(rs, i, s, e)
  {
    SettledIsDisjoint(rs, s, e);
    i := SlotOf(rs, s, e);
    StepSlot(rs, i, s, e);
    PreviousOfSlot(rs, i, s, e);
    MergeCases(rs, i, s, e);
  }

  lemma AgainFree(rs: seq<Range>, s: int, e: int)
    requires Coalesced(rs) && rs != [] && s <= e && CanFree(rs, s, e) && WideAfter(rs, s, e) && Step(rs, s, e).Again?
    ensures var a := Step(rs, s, e);
      CanFree(rs, a.s, a.e) && WideAfter(rs, a.s, a.e) && FreeEffect(rs, a.s, a.e) == FreeEffect(rs, s, e)
  {
    AgainIsDisjoint(rs, s, e);
  }

  /** What one activation of define_free_memory does next. */
  datatype FreePlan = Refuse | Retry(start: int, size: nat) | Proceed

  class PhysicalMemoryManager {
    var memorySize: int
    var freeMemorySize: int
    var firstEntry: MemoryEntry?
    const freeList: array<MemoryEntry?>
    /** The unused entries, last returned first. */
    var pool: seq<MemoryEntry>

    ghost var nodes: set<MemoryEntry>
    ghost var entries: seq<MemoryEntry>
    ghost var lists: seq<seq<MemoryEntry>>
    ghost var ranges: seq<Range>

    // -------------------------------------------------------------- the twelve lists

    ghost predicate Linked()
      reads this`nodes, this`lists, freeList, nodes`listNext, nodes`listPrev
    {
      AllChained(lists, freeList[..], nodes)
    }

    ghost predicate Ordered()
      reads this`nodes, this`lists, nodes`order
    {
      OrdersMatch(lists, nodes)
    }

    /** The entries that are on some free list. */
    ghost function Listed(): set<MemoryEntry>
      reads this`nodes, nodes`order
    {
      set e | e in nodes && e.order != -1
    }

    ghost predicate IndexOk()
      reads this`nodes, this`lists, freeList, nodes`listNext, nodes`listPrev, nodes`order
    {
      Linked() && Ordered()
    }

    ghost predicate SizesOk(except: set<MemoryEntry>)
      reads this`nodes, this`lists, nodes`start, nodes`end
    {
      Ascending(lists, nodes, except)
    }

    lemma IndexFacts()
      requires IndexOk()
      ensures |lists| == NUM_OF_FREE_LIST
    {
    }

    /** Entries on different lists are different. */
    ghost predicate ListsApart(k: nat)
      reads this`lists
      requires k < |lists|
    {
      forall q, j :: 0 <= q < |lists| && q != k && 0 <= j < |lists[q]| ==> lists[q][j] !in lists[k]
    }

    method DetachLinks(entry: MemoryEntry, k: nat, ghost i: nat)
      requires Linked() && k < |lists| && i < |lists[k]| && lists[k][i] == entry && ListsApart(k)
      modifies this`lists, freeList, lists[k]`listNext, lists[k]`listPrev
      ensures Linked()
      ensures entry.listNext == null && entry.listPrev == null
      ensures lists == old(lists)[k := Dropped(old(lists)[k], i)]
    {
      hide Chained, Dropped;
      ghost var l := lists[k];
      DroppedAt(l, i);
      ghost var heads := freeList[..];
      var h := Unlink(entry, freeList[k], l, i);
      assert forall q :: 0 <= q < |lists| && q != k ==> Chained(lists[q], heads[q]);
      assert AllChained(lists[k := Dropped(l, i)], heads[k := h], nodes);
      freeList[k] := h;
      lists := lists[k := Dropped(l, i)];
      assert freeList[..] == heads[k := h];
    }

    /** unchain_from_freelist and the head fix that both callers make before it. */
    method Detach(entry: MemoryEntry, k: nat) returns (ghost i: nat)
      requires IndexOk() && entry in nodes && entry.order == k
      modifies this`lists, freeList, Listed()`listNext, Listed()`listPrev, entry`order
      ensures IndexOk()
      ensures entry.order == -1 && entry.listNext == null && entry.listPrev == null
      ensures i < |old(lists)[k]| && old(lists)[k][i] == entry
      ensures lists == old(lists)[k := Dropped(old(lists)[k], i)]
    {
      i :| 0 <= i < |lists[k]| && lists[k][i] == entry;
      ghost var ll := lists;
      assert Distinct(ll[k]);
      DetachLinks(entry, k, i);
      entry.order := -1;
      DroppedOrdered(ll, k, i);
    }

    method AttachLinks(entry: MemoryEntry, k: nat) returns (ghost pos: nat)
      requires Linked() && k < |lists| && entry in nodes && entry.listNext == null && entry.listPrev == null
      requires forall q, j :: 0 <= q < |lists| && 0 <= j < |lists[q]| ==> lists[q][j] != entry
      requires ListsApart(k)
      modifies this`lists, freeList, lists[k]`listNext, lists[k]`listPrev, entry`listNext, entry`listPrev
      ensures Linked()
      ensures pos <= |old(lists)[k]| && lists == old(lists)[k := Inserted(old(lists)[k], pos, entry)]
      ensures forall j :: 0 <= j < pos ==> old(lists)[k][j].Size() < entry.Size()
      ensures pos < |old(lists)[k]| ==> entry.Size() <= old(lists)[k][pos].Size()
    {
      ghost var l := lists[k];
      hide Inserted;
      ghost var heads := freeList[..];
      var h;
      h, pos := Link(entry, freeList[k], l);
      assert forall q :: 0 <= q < |lists| && q != k ==> Chained(lists[q], heads[q]);
      ghost var m := Inserted(l, pos, entry);
      ListReplaced(lists, heads, nodes, k, l, pos, entry, h);
      freeList[k] := h;
      lists := lists[k := m];
      assert freeList[..] == heads[k := h];
    }

    method Attach(entry: MemoryEntry, k: nat) returns (ghost pos: nat)
      requires IndexOk() && k < |lists| && entry in nodes && entry.order == -1
      requires entry.listNext == null && entry.listPrev == null
      modifies this`lists, freeList, Listed()`listNext, Listed()`listPrev, entry`listNext, entry`listPrev, entry`order
      ensures IndexOk() && entry.order == k
      ensures pos <= |old(lists)[k]| && lists == old(lists)[k := Inserted(old(lists)[k], pos, entry)]
      ensures forall j :: 0 <= j < pos ==> old(lists)[k][j].Size() < entry.Size()
      ensures pos < |old(lists)[k]| ==> entry.Size() <= old(lists)[k][pos].Size()
    {
      ghost var ll := lists;
      pos := AttachLinks(entry, k);
      entry.order := k;
      InsertedOrdered(ll, k, pos, entry);
    }

    lemma InsertedOrdered(ll: seq<seq<MemoryEntry>>, k: nat, pos: nat, x: MemoryEntry)
      requires k < |ll| && pos <= |ll[k]| && x in nodes && x.order == k
      requires lists == ll[k := Inserted(ll[k], pos, x)]
      requires forall q, j :: 0 <= q < |ll| && 0 <= j < |ll[q]| ==>
        ll[q][j] in nodes && ll[q][j] != x && ll[q][j].order == q
      requires forall e :: e in nodes && e != x && e.order != -1 ==> 0 <= e.order < |ll| && e in ll[e.order]
      ensures Ordered()
    {
      var m := Inserted(ll[k], pos, x);
      assert forall j :: 0 <= j < |m| ==> m[j] == if j < pos then ll[k][j] else if j == pos then x else ll[k][j - 1];
      forall e | e in nodes && e.order != -1
        ensures 0 <= e.order < |lists| && e in lists[e.order]
      {
        if e == x {
          assert m[pos] == x;
        } else if e.order == k {
          var j :| 0 <= j < |ll[k]| && ll[k][j] == e;
          assert m[if j < pos then j else j + 1] == e;
        }
      }
    }

    /** unchain_entry_from_free_list. */
    method UnchainEntry(entry: MemoryEntry, ghost x: set<MemoryEntry>)
      requires IndexOk() && SizesOk(x) && entry in nodes
      requires 0 <= entry.Size() && entry.order == SizeToPageOrder(entry.Size())
      modifies this`lists, freeList, Listed()`listNext, Listed()`listPrev, entry`order
      ensures IndexOk() && SizesOk(x - {entry})
      ensures entry.order == -1 && entry.listNext == null && entry.listPrev == null
    {
      var order := PageOrderOfSize(entry.Size());
      ghost var i := DetachChecked(entry, order, x);
    }

    /** Detach, keeping the order of sizes. */
    method DetachChecked(entry: MemoryEntry, k: nat, ghost x: set<MemoryEntry>) returns (ghost i: nat)
      requires IndexOk() && SizesOk(x) && entry in nodes && entry.order == k
      modifies this`lists, freeList, Listed()`listNext, Listed()`listPrev, entry`order
      ensures IndexOk() && SizesOk(x - {entry})
      ensures entry.order == -1 && entry.listNext == null && entry.listPrev == null
    {
      ghost var ll := lists;
      assert Distinct(ll[k]);
      assert forall q, j :: 0 <= q < |ll| && 0 <= j < |ll[q]| && ll[q][j] == entry ==> q == k;
      i := Detach(entry, k);
      DroppedAscending(ll, nodes, x, k, i);
    }

    /** chain_entry_to_free_list for an entry that was on the list of `oldSize`. */
    method Rechain(entry: MemoryEntry, oldSize: int, ghost x: set<MemoryEntry>)
      requires IndexOk() && SizesOk(x) && entry in nodes && 0 <= entry.Size()
      requires 0 <= oldSize && entry.order == SizeToPageOrder(oldSize)
      modifies this`lists, freeList, Listed()`listNext, Listed()`listPrev, entry`order
      ensures IndexOk() && entry.order == SizeToPageOrder(entry.Size())
      ensures SizesOk(x + {entry})
      ensures x <= {entry} ==> SizesOk({})
    {
      var oldOrder := PageOrderOfSize(oldSize);
      ghost var i := DetachChecked(entry, oldOrder, x);
      ghost var y := x - {entry};
      assert y + {entry} == x + {entry};
      var newOrder := PageOrderOfSize(entry.Size());
      AttachChecked(entry, newOrder, y);
    }

    /** chain_entry_to_free_list: `entry` is taken off the list of its old size, if it had one,
        and goes to its place on the list of its present size. */
    method ChainEntry(entry: MemoryEntry, oldSize: Option<int>, ghost x: set<MemoryEntry>)
      requires IndexOk() && SizesOk(x) && entry in nodes && 0 <= entry.Size()
      requires oldSize.None? ==> entry.order == -1 && entry.listNext == null && entry.listPrev == null
      requires oldSize.Some? ==> 0 <= oldSize.value && entry.order == SizeToPageOrder(oldSize.value)
      requires oldSize == Some(entry.Size()) ==> entry !in x
      modifies this`lists, freeList, Listed()`listNext, Listed()`listPrev, entry`listNext, entry`listPrev, entry`order
      ensures IndexOk() && entry.order == SizeToPageOrder(entry.Size())
      ensures SizesOk(x + {entry})
      ensures x <= {entry} ==> SizesOk({})
    {
      if oldSize.None? {
        var newOrder := PageOrderOfSize(entry.Size());
        AttachChecked(entry, newOrder, x);
      } else if oldSize.value != entry.Size() {
        Rechain(entry, oldSize.value, x);
      } else {
        AscendingWeaken(lists, nodes, x, x + {entry});
        assert x <= {entry} ==> x == {};
      }
    }

    /** Attach, keeping the order of sizes. */
    method AttachChecked(entry: MemoryEntry, k: nat, ghost x: set<MemoryEntry>)
      requires IndexOk() && SizesOk(x) && entry in nodes && entry.order == -1
      requires entry.listNext == null && entry.listPrev == null
      requires 0 <= entry.Size() && k == SizeToPageOrder(entry.Size())
      modifies this`lists, freeList, Listed()`listNext, Listed()`listPrev, entry`listNext, entry`listPrev, entry`order
      ensures IndexOk() && entry.order == k
      ensures SizesOk(x + {entry})
      ensures x <= {entry} ==> SizesOk({})
    {
      hide AllChained, Chained, SizeToPageOrder;
      IndexFacts();
      ghost var ll := lists;
      ghost var pos := Attach(entry, k);
      InsertedAscending(ll, nodes, x, k, pos, entry);
      if x <= {entry} {
        assert Ascending(ll, nodes, {});
        InsertedInPlace(ll, nodes, k, pos, entry);
      }
    }

    // -------------------------------------------------------------- entries and pool

    ghost predicate Core(loose: set<MemoryEntry>)
      reads this`nodes, this`lists, this`entries, this`pool, this`firstEntry, this`ranges, freeList, nodes, entries
    {
      IndexOk() && SizesOk({}) && AddressLinked(entries, firstEntry) && Populated(nodes, entries, pool, loose) &&
        RangesMatch(entries, ranges)
    }

    /** `set_range` on a listed entry: only its own place among the sizes becomes stale. */
    method SetRangeAt(entry: MemoryEntry, s: int, e: int, ghost i: nat, ghost x: set<MemoryEntry>)
      requires SizesOk(x) && RangesMatch(entries, ranges) && Distinct(entries) && i < |entries| &&
        entries[i] == entry && s < e
      modifies this`ranges, entry`start, entry`end
      ensures entry.start == s && entry.end == e
      ensures SizesOk(x + {entry}) && RangesMatch(entries, ranges)
      ensures old(entry.Size()) == entry.Size() ==> SizesOk(x)
      ensures ranges == old(ranges)[i := Range(s, e)]
    {
      entry.SetRange(s, e);
      ranges := ranges[i := Range(s, e)];
    }

    lemma CoreAsCoreBut()
      ensures Core({}) <==> CoreBut({})
    {
    }

    /** `set_range` followed by `chain_entry_to_free_list` with the old size. */
    method Resize(entry: MemoryEntry, s: int, e: int, ghost i: nat, ghost loose: set<MemoryEntry>)
      requires Core(loose) && i < |entries| && entries[i] == entry && s < e && entry.start <= entry.end
      requires entry.order == SizeToPageOrder(entry.Size())
      modifies this`lists, this`ranges, freeList, Listed()`listNext, Listed()`listPrev, entry`order, entry`start,
        entry`end
      ensures Core(loose)
      ensures ranges == old(ranges)[i := Range(s, e)]
    {
      hide PhysicalMemoryManager.IndexOk, PhysicalMemoryManager.SizesOk;
      hide SizeToPageOrder, AddressLinked, RangesMatch;
      LinkedDistinct(entries, firstEntry);
      var oldSize := entry.Size();
      SetRangeAt(entry, s, e, i, {});
      ghost var x := if oldSize == entry.Size() then {} else {entry};
      assert {} + {entry} == {entry};
      assert SizesOk(x);
      ChainEntry(entry, Some(oldSize), x);
    }

    lemma RemovedPopulated(was: seq<MemoryEntry>, entry: MemoryEntry, i: nat, oldPool: seq<MemoryEntry>)
      requires i < |was| && was[i] == entry && Distinct(was) && entry in nodes && entry.order == -1
      requires forall j :: 0 <= j < |was| && j != i ==> was[j] in nodes && was[j].order != -1 && was[j].enabled
      requires forall j :: 0 <= j < |oldPool| ==> oldPool[j] in nodes && oldPool[j].order == -1 && oldPool[j] != entry
      requires Distinct(oldPool)
      requires forall e :: e in nodes && e != entry ==> if e.order != -1 then e in was else e in oldPool
      ensures Populated(nodes, Dropped(was, i), [entry] + oldPool, {})
    {
      var d := Dropped(was, i);
      DroppedAt(was, i);
      forall e | e in nodes
        ensures if e.order != -1 then e in d else e in [entry] + oldPool
      {
        if e.order != -1 {
          var j :| 0 <= j < |was| && was[j] == e;
          assert d[if j < i then j else j - 1] == e;
        }
      }
    }

    /** `first_entry` moved on if needed, and MemoryEntry::delete. */
    method Unlist(entry: MemoryEntry, ghost i: nat)
      requires AddressLinked(entries, firstEntry) && RangesMatch(entries, ranges)
      requires i < |entries| && entries[i] == entry && forall j :: 0 <= j < |entries| ==> entries[j] in nodes
      modifies this`entries, this`ranges, this`firstEntry, nodes`next, nodes`previous, entry`enabled
      ensures AddressLinked(entries, firstEntry) && RangesMatch(entries, ranges)
      ensures entries == Dropped(old(entries), i) && ranges == Dropped(old(ranges), i)
    {
      ghost var was := entries;
      if entry.previous == null {
        firstEntry := entry.next;
      }
      Delete(entry, firstEntry, was, i);
      entries, ranges := Dropped(was, i), Dropped(ranges, i);
      DroppedAt(was, i);
      DroppedAt(old(ranges), i);
      hide AddressLinked, Dropped;
    }

    /** Take an unchained entry out of the address list and return it to the pool. */
    method Excise(entry: MemoryEntry, ghost i: nat)
      requires AddressLinked(entries, firstEntry) && RangesMatch(entries, ranges) && Distinct(pool)
      requires i < |entries| && entries[i] == entry && |entries| > 1 && entry in nodes && entry.order == -1
      requires forall j :: 0 <= j < |entries| && j != i ==>
        entries[j] in nodes && entries[j].order != -1 && entries[j].enabled
      requires forall j :: 0 <= j < |pool| ==> pool[j] in nodes && pool[j].order == -1 && pool[j] != entry
      requires forall e :: e in nodes && e != entry ==> if e.order != -1 then e in entries else e in pool
      modifies this`entries, this`ranges, this`pool, this`firstEntry
      modifies nodes`next, nodes`previous, entry`enabled
      ensures AddressLinked(entries, firstEntry) && RangesMatch(entries, ranges) && Populated(nodes, entries, pool, {})
      ensures entries == Dropped(old(entries), i) && ranges == Dropped(old(ranges), i) && pool == [entry] + old(pool)
    {
      hide AddressLinked, RangesMatch, Populated, Dropped;
      ghost var was := entries;
      LinkedDistinct(was, firstEntry);
      Unlist(entry, i);
      pool := [entry] + pool;
      RemovedPopulated(was, entry, i, old(pool));
    }

    /** Core, while the entries in `x` may be out of place among the sizes. */
    ghost predicate CoreBut(x: set<MemoryEntry>)
      reads this`nodes, this`lists, this`entries, this`pool, this`firstEntry, this`ranges, freeList, nodes, entries
    {
      IndexOk() && SizesOk(x) && AddressLinked(entries, firstEntry) && Populated(nodes, entries, pool, {}) &&
        RangesMatch(entries, ranges)
    }

    /** The steps that take a whole entry out: fix `first_entry`, unchain, delete, return to the pool. */
    method RemoveEntry(entry: MemoryEntry, ghost i: nat, ghost x: set<MemoryEntry>)
      requires CoreBut(x) && i < |entries| && entries[i] == entry && |entries| > 1
      requires 0 <= entry.Size() && entry.order == SizeToPageOrder(entry.Size())
      modifies this`lists, this`entries, this`ranges, this`pool, this`firstEntry, freeList
      modifies nodes`next, nodes`previous, Listed()`listNext, Listed()`listPrev, entry`order, entry`enabled
      ensures CoreBut(x - {entry})
      ensures entries == Dropped(old(entries), i) && ranges == Dropped(old(ranges), i) && pool == [entry] + old(pool)
    {
      hide PhysicalMemoryManager.IndexOk, PhysicalMemoryManager.SizesOk;
      hide SizeToPageOrder, AddressLinked, RangesMatch, Dropped;
      LinkedDistinct(entries, firstEntry);
      UnchainEntry(entry, x);
      Excise(entry, i);
    }

    /** MemoryEntry::init on an entry that is on no list. */
    method InitEntry(r: MemoryEntry)
      requires IndexOk() && r in nodes && r.order == -1
      modifies r`next, r`previous, r`listNext, r`listPrev, r`enabled
      ensures IndexOk()
      ensures r.next == null && r.previous == null && r.listNext == null && r.listPrev == null && r.enabled
    {
      r.enabled := true;
      r.previous, r.next, r.listPrev, r.listNext := null, null, null, null;
      assert forall k :: 0 <= k < |lists| ==> Chained(lists[k], freeList[..][k]);
    }

    lemma TakenPopulated(oldPool: seq<MemoryEntry>)
      requires oldPool != [] && Populated(nodes, entries, oldPool, {})
      ensures Populated(nodes, entries, oldPool[1..], {oldPool[0]})
    {
      var rest := oldPool[1..];
      forall e | e in nodes && e != oldPool[0]
        ensures if e.order != -1 then e in entries else e in rest
      {
        if e.order == -1 {
          var j :| 0 <= j < |oldPool| && oldPool[j] == e;
          assert rest[j - 1] == e;
        }
      }
    }

    /** create_memory_entry. */
    method CreateEntry() returns (r: Result<MemoryEntry>)
      requires Core({})
      modifies this`pool, pool`next, pool`previous, pool`listNext, pool`listPrev, pool`enabled
      ensures old(pool) == [] ==> r == Err(EntryPoolRunOut) && pool == [] && Core({})
      ensures old(pool) != [] ==> r.Ok? && r.value == old(pool)[0] && pool == old(pool)[1..] && Core({r.value})
      ensures r.Ok? ==>
        r.value.next == null && r.value.previous == null && r.value.listNext == null && r.value.listPrev == null &&
        r.value.enabled
    {
      hide PhysicalMemoryManager.IndexOk, PhysicalMemoryManager.SizesOk;
      if pool == [] {
        return Err(EntryPoolRunOut);
      }
      var e := pool[0];
      pool := pool[1..];
      TakenPopulated(old(pool));
      InitEntry(e);
      return Ok(e);
    }

    lemma AdoptedPopulated(was: seq<MemoryEntry>, r: MemoryEntry, i: nat)
      requires i <= |was| && r in nodes && r.order != -1 && r.enabled
      requires forall j :: 0 <= j < |was| ==> was[j] in nodes && was[j].order != -1 && was[j].enabled
      requires forall j :: 0 <= j < |pool| ==> pool[j] in nodes && pool[j].order == -1
      requires Distinct(pool)
      requires forall e :: e in nodes && e != r ==> if e.order != -1 then e in was else e in pool
      ensures Populated(nodes, Inserted(was, i, r), pool, {})
    {
      var m := Inserted(was, i, r);
      InsertedAt(was, i, r);
      forall e | e in nodes && e.order != -1
        ensures e in m
      {
        if e == r {
          assert m[i] == r;
        } else {
          var j :| 0 <= j < |was| && was[j] == e;
          assert m[if j < i then j else j + 1] == e;
        }
      }
    }

    /** The new entry enters the address list, after `entry` or, without one, in front. */
    method Enlist(entry: MemoryEntry?, r: MemoryEntry, ghost i: nat)
      requires AddressLinked(entries, firstEntry) && RangesMatch(entries, ranges)
      requires forall j :: 0 <= j < |entries| ==> entries[j] in nodes
      requires r in nodes && r !in entries && r.next == null && r.previous == null && i <= |entries|
      requires if entry == null then i == 0 && firstEntry != null else 0 < i && entries[i - 1] == entry
      modifies this`entries, this`ranges, this`firstEntry, nodes`next, nodes`previous
      ensures AddressLinked(entries, firstEntry) && RangesMatch(entries, ranges)
      ensures entries == Inserted(old(entries), i, r) && ranges == Inserted(old(ranges), i, r.AsRange())
    {
      hide AddressLinked, RangesMatch, Inserted;
      ghost var was := entries;
      if entry == null {
        ChainFirst(r, firstEntry, was);
        firstEntry := r;
      } else {
        ChainAfter(entry, r, firstEntry, was, i - 1);
      }
      RangesInserted(was, ranges, i, r);
      entries, ranges := Inserted(was, i, r), Inserted(ranges, i, r.AsRange());
    }

    /** `set_range` on an entry that is on no list. */
    method SetRangeLoose(r: MemoryEntry, s: int, e: int)
      requires Ordered() && SizesOk({}) && r in nodes && r.order == -1 && s < e
      modifies r`start, r`end
      ensures SizesOk({}) && r.start == s && r.end == e
    {
      assert forall k, j :: 0 <= k < |lists| && 0 <= j < |lists[k]| ==> lists[k][j] != r;
      r.SetRange(s, e);
    }

    /** `set_range` on a created entry. */
    method SetRangeNew(r: MemoryEntry, s: int, e: int)
      requires Core({r}) && s < e
      modifies r`start, r`end
      ensures Core({r}) && r.start == s && r.end == e
    {
      hide AddressLinked, AllChained, Chained, Ascending;
      hide PhysicalMemoryManager.Ordered, PhysicalMemoryManager.SizesOk;
      SetRangeLoose(r, s, e);
    }

    /** A created entry gets its range, its place in the address list and its free list. */
    method Adopt(entry: MemoryEntry?, r: MemoryEntry, ghost i: nat)
      requires Core({r}) && r.next == null && r.previous == null && r.listNext == null && r.listPrev == null &&
        r.enabled
      requires 0 <= r.Size() && i <= |entries|
      requires if entry == null then i == 0 && firstEntry != null else 0 < i && entries[i - 1] == entry
      modifies this`entries, this`ranges, this`firstEntry, this`lists, freeList
      modifies nodes`next, nodes`previous, Listed()`listNext, Listed()`listPrev, r`listNext, r`listPrev, r`order
      ensures Core({})
      ensures entries == Inserted(old(entries), i, r) && ranges == Inserted(old(ranges), i, r.AsRange())
    {
      hide PhysicalMemoryManager.IndexOk, PhysicalMemoryManager.SizesOk;
      hide SizeToPageOrder, AddressLinked, RangesMatch, Inserted;
      ghost var was := entries;
      Enlist(entry, r, i);
      ChainEntry(r, None, {});
      AdoptedPopulated(was, r, i);
    }

    // -------------------------------------------------------------- searches

    /** The whole invariant: both threadings agree with each other and with `ranges`, which are
        sorted, disjoint and coalesced; and the counters are right. */
    ghost predicate Valid()
      reads this, freeList, nodes, entries
    {
      Books() && freeMemorySize <= memorySize
    }

    /** The invariant, but for the total that `free` brings up to date last. */
    ghost predicate Books()
      reads this, freeList, nodes, entries
    {
      && Core({})
      && Coalesced(ranges) && Wide(ranges)
      && freeMemorySize == Total(ranges)
      && (memorySize == 0 <==> entries == [])
      && 0 <= memorySize
    }

    lemma EntryFacts(i: nat, loose: set<MemoryEntry> := {})
      requires Core(loose) && i < |entries|
      ensures |ranges| == |entries| && entries[i].AsRange() == ranges[i] && entries[i] in nodes
      ensures 0 <= entries[i].Size() && entries[i].order == SizeToPageOrder(entries[i].Size())
      ensures entries[i].next == if i + 1 < |entries| then entries[i + 1] else null
      ensures entries[i].previous == if i > 0 then entries[i - 1] else null
      ensures firstEntry == entries[0]
    {
      hide SizeToPageOrder;
      var e := entries[i];
      assert e in lists[e.order];
    }

    /** search_entry_containing_address_mut. */
    method SearchContaining(address: int) returns (r: MemoryEntry?, ghost i: nat)
      requires Valid() && firstEntry != null
      ensures r == null ==> forall k :: 0 <= k < |ranges| ==> !(ranges[k].start <= address <= ranges[k].end)
      ensures r != null ==> i < |entries| && entries[i] == r && ranges[i].start <= address <= ranges[i].end
    {
      hide PhysicalMemoryManager.Core;
      NonEmpty();
      var entry := firstEntry;
      i := 0;
      EntryFacts(0);
      while entry.start < address && entry.end < address
        invariant i < |entries| == |ranges| && entries[i] == entry && entry.AsRange() == ranges[i]
        invariant forall k :: 0 <= k < i ==> ranges[k].end < address
        decreases |entries| - i
      {
        EntryFacts(i);
        if entry.next == null {
          return null, i;
        }
        EntryFacts(i + 1);
        entry := entry.next;
        i := i + 1;
      }
      if entry.start <= address <= entry.end {
        return entry, i;
      }
      return null, i;
    }

    lemma NonEmpty()
      requires Core({}) && firstEntry != null
      ensures |entries| > 0
    {
    }
    // -------------------------------------------------------------- taking a block

    /** The new state after a block has left entry `i`. */
    ghost predicate Taken(was: seq<Range>, i: nat, s: int, e: int, entriesAndPool: int)
      reads this`nodes, this`lists, this`entries, this`pool, this`firstEntry, this`ranges, freeList, nodes, entries
    {
      && i < |was| && was[i].Contains(s, e)
      && Core({}) && ranges == Carve(was, i, s, e)
      && |pool| + |ranges| == entriesAndPool
    }

    method TakeWhole(entry: MemoryEntry, ghost i: nat)
      requires Valid() && i < |entries| && entries[i] == entry && |entries| > 1
      modifies this`lists, this`entries, this`ranges, this`pool, this`firstEntry, freeList, nodes
      ensures Taken(old(ranges), i, old(entry.start), old(entry.end), old(|pool| + |ranges|))
    {
      hide PhysicalMemoryManager.Core, PhysicalMemoryManager.CoreBut;
      EntryFacts(i);
      CarveCases(ranges, i, entry.start, entry.end);
      assert {} - {entry} == {};
      CoreAsCoreBut();
      RemoveEntry(entry, i, {});
      CoreAsCoreBut();
    }

    method TakeFront(entry: MemoryEntry, e: int, ghost i: nat)
      requires Valid() && i < |entries| && entries[i] == entry && entry.start <= e && e + 1 < entry.end
      modifies this`lists, this`ranges, freeList, nodes
      ensures Taken(old(ranges), i, old(entry.start), e, old(|pool| + |ranges|))
    {
      hide PhysicalMemoryManager.Core;
      EntryFacts(i);
      CarveCases(ranges, i, entry.start, e);
      Resize(entry, e + 1, entry.end, i, {});
    }

    method TakeBack(entry: MemoryEntry, s: int, ghost i: nat)
      requires Valid() && i < |entries| && entries[i] == entry && entry.start < s - 1 && s <= entry.end
      modifies this`lists, this`ranges, freeList, nodes
      ensures Taken(old(ranges), i, s, old(entry.end), old(|pool| + |ranges|))
    {
      hide PhysicalMemoryManager.Core;
      EntryFacts(i);
      CarveCases(ranges, i, s, entry.end);
      Resize(entry, entry.start, s - 1, i, {});
    }
    method TakeMiddle(entry: MemoryEntry, s: int, e: int, ghost i: nat)
      requires Valid() && i < |entries| && entries[i] == entry && pool != []
      requires entry.start < s - 1 && s <= e && e + 1 < entry.end
      modifies this`lists, this`entries, this`ranges, this`pool, this`firstEntry, freeList, nodes
      ensures Taken(old(ranges), i, s, e, old(|pool| + |ranges|))
    {
      hide PhysicalMemoryManager.Core;
      hide Inserted;
      EntryFacts(i);
      PoolFacts();
      CarveCases(ranges, i, s, e);
      var created := CreateEntry();
      var r := created.value;
      EntryFacts(i, {r});
      SetRangeNew(r, e + 1, entry.end);
      EntryFacts(i, {r});
      LooseFacts(r);
      Resize(entry, entry.start, s - 1, i, {r});
      Adopt(entry, r, i + 1);
      InsertedAt(old(ranges)[i := Range(old(entry.start), s - 1)], i + 1, Range(e + 1, old(entry.end)));
    }

    lemma LooseFacts(r: MemoryEntry)
      requires Core({r})
      ensures r in nodes && r.order == -1
    {
    }

    lemma PoolFacts()
      requires Core({})
      ensures forall j :: 0 <= j < |pool| ==> pool[j] in nodes && pool[j] !in entries
    {
    }

    /** Nothing a caller can see has changed. */
    twostate predicate Untouched()
      reads this, nodes, freeList
    {
      unchanged(this) && unchanged(freeList) && unchanged(old(nodes))
    }

    lemma TakenValid(was: seq<Range>, i: nat, s: int, e: int, n: int)
      requires Taken(was, i, s, e, n) && s <= e && Coalesced(was) && Wide(was) && CleanCut(was[i], s, e)
      requires freeMemorySize == Total(was) - SizeOf(s, e) && Total(was) <= memorySize && 0 < memorySize
      requires |was| == 1 ==> was[0] != Range(s, e)
      ensures Valid()
    {
      hide PhysicalMemoryManager.Core;
      hide Coalesced, Wide, Total;
      CarveCoalesced(was, i, s, e);
      CarveTotal(was, i, s, e);
      RangeCount();
    }

    lemma RangeCount()
      requires Core({})
      ensures |ranges| == |entries|
    {
    }

    /** The branches of define_used_memory, for the entry that holds the first byte. */
    method UseEntry(entry: MemoryEntry, start: int, size: nat, ghost i: nat) returns (err: Option<MemoryError>)
      requires Valid() && i < |entries| && entries[i] == entry && entry.start <= start <= entry.end
      requires 0 < size <= freeMemorySize && Takable(ranges, start, EndAddress(start, size))
      modifies this, freeList, nodes
      ensures Valid() && memorySize == old(memorySize) && nodes == old(nodes)
      ensures err == Refusal(old(ranges), old(pool) == [], old(freeMemorySize), start, size)
      ensures err.Some? ==> Untouched()
      ensures err == None ==>
                && Taken(old(ranges), i, start, EndAddress(start, size), old(|pool| + |ranges|))
                && freeMemorySize == old(freeMemorySize) - size
    {
      hide PhysicalMemoryManager.Core, PhysicalMemoryManager.Taken;
      hide Coalesced, Wide, Total;
      hide Refusal;
      EntryFacts(i);
      RefusalAt(ranges, pool == [], freeMemorySize, start, size, i);
      var end := EndAddress(start, size);
      assert ranges[i].start <= start <= ranges[i].end;
      if entry.start == start {
        if entry.end == end {
          if entry.previous == null && entry.next == null {
            return Some(AddressNotAvailable);
          }
          TakeWhole(entry, i);
        } else {
          TakeFront(entry, end, i);
        }
      } else if entry.end == start {
        if size != 1 {
          return Some(InvalidAddress);
        }
        TakeBack(entry, start, i);
      } else if entry.end == end {
        TakeBack(entry, start, i);
      } else {
        if pool == [] {
          return Some(EntryPoolRunOut);
        }
        TakeMiddle(entry, start, end, i);
      }
      freeMemorySize := freeMemorySize - size;
      TakenValid(old(ranges), i, start, end, old(|pool| + |ranges|));
      return None;
    }

    /** define_used_memory without alignment: take `size` bytes at `start`, from `target` if given. */
    method DefineUsedMemory(start: int, size: nat, target: MemoryEntry?, ghost ti: nat)
      returns (err: Option<MemoryError>, ghost i: nat)
      requires Valid()
      requires target != null && size > 0 ==>
                 ti < |entries| && entries[ti] == target && ranges[ti].Contains(start, EndAddress(start, size))
      requires size > 0 ==> Takable(ranges, start, EndAddress(start, size))
      modifies this, freeList, nodes
      ensures Valid() && memorySize == old(memorySize) && nodes == old(nodes)
      ensures err == Refusal(old(ranges), old(pool) == [], old(freeMemorySize), start, size)
      ensures err.Some? ==> Untouched()
      ensures err == None ==>
                && size > 0 && Taken(old(ranges), i, start, EndAddress(start, size), old(|pool| + |ranges|))
                && freeMemorySize == old(freeMemorySize) - size
    {
      hide PhysicalMemoryManager.Core, PhysicalMemoryManager.Taken;
      hide Coalesced, Wide;
      i := ti;
      if size == 0 || freeMemorySize < size {
        return Some(InvalidSize), i;
      }
      if target != null {
        EntryFacts(ti);
        err := UseEntry(target, start, size, ti);
      } else {
        RangeCount();
        EntryFacts(0);
        var t;
        t, i := SearchContaining(start);
        if t == null {
          return Some(InvalidAddress), i;
        }
        EntryFacts(i);
        err := UseEntry(t, start, size, i);
      }
    }

    /** reserve_memory: define_used_memory on the aligned block around the given one. */
    method ReserveMemory(start: nat, size: nat, alignOrder: nat) returns (err: Option<MemoryError>, ghost i: nat)
      requires Valid()
      requires 0 < size <= freeMemorySize ==>
                 && alignOrder <= PAGE_SHIFT
                 && var (s, n) := AlignBlock(start, size, alignOrder); Takable(ranges, s, EndAddress(s, n))
      modifies this, freeList, nodes
      ensures Valid() && memorySize == old(memorySize) && nodes == old(nodes)
      ensures err.Some? ==> Untouched()
      ensures !(0 < size <= old(freeMemorySize)) ==> err == Some(InvalidSize)
      ensures 0 < size <= old(freeMemorySize) ==>
                var (s, n) := AlignBlock(start, size, alignOrder);
                && err == Refusal(old(ranges), old(pool) == [], old(freeMemorySize), s, n)
                && (err == None ==>
                     && n > 0 && Taken(old(ranges), i, s, EndAddress(s, n), old(|pool| + |ranges|))
                     && freeMemorySize == old(freeMemorySize) - n)
    {
      hide PhysicalMemoryManager.Core, PhysicalMemoryManager.Taken;
      hide Down, Pow2, Takable, Refusal, Coalesced, Wide, Total;
      i := 0;
      if size == 0 || freeMemorySize < size {
        return Some(InvalidSize), i;
      }
      if alignOrder != 0 {
        var (s, n) := AlignBlock(start, size, alignOrder);
        err, i := DefineUsedMemory(s, n, null, 0);
      } else {
        AlignBlockTrivial(start, size);
        err, i := DefineUsedMemory(start, size, null, 0);
      }
    }

    // -------------------------------------------------------------- alloc

    lemma ListFacts(k: nat)
      requires Core({}) && k < NUM_OF_FREE_LIST
      ensures freeList.Length == |lists| == NUM_OF_FREE_LIST && |ranges| == |entries|
      ensures freeList[k] == if lists[k] == [] then null else lists[k][0]
      ensures forall p {:trigger lists[k][p].listNext} :: 0 <= p < |lists[k]| ==>
                lists[k][p].listNext == if p + 1 < |lists[k]| then lists[k][p + 1] else null
    {
      assert Chained(lists[k], freeList[..][k]);
    }

    /** The place in the address list of an entry on a free list. */
    lemma ListEntry(k: nat, p: nat) returns (j: nat)
      requires Core({}) && k < NUM_OF_FREE_LIST && |lists| == NUM_OF_FREE_LIST && p < |lists[k]|
      ensures |ranges| == |entries| && j < |entries| && entries[j] == lists[k][p] && ranges[j] == entries[j].AsRange()
      ensures entries[j].order == k
    {
      assert lists[k][p] in entries;
      j :| 0 <= j < |entries| && entries[j] == lists[k][p];
    }

    /** The entries in scan order grow: an entry met later is not smaller. */
    lemma ScanAscends(k: nat, p: nat, j: nat)
      requires Core({}) && k < NUM_OF_FREE_LIST == |lists| && p < |lists[k]| && j < |entries|
      requires entries[j].order > k || (entries[j].order == k && forall q :: 0 <= q < p ==> lists[k][q] != entries[j])
      ensures lists[k][p].Size() <= entries[j].Size()
    {
      hide SizeToPageOrder;
      var e, o := entries[j], entries[j].order;
      assert e in lists[o];
      var q :| 0 <= q < |lists[o]| && lists[o][q] == e;
      if o > k {
        OrderBelow(lists[k][p].Size(), e.Size());
      }
    }

    lemma OrderBelow(a: int, b: int)
      requires 0 <= a && 0 <= b
      requires SizeToPageOrder(a) < SizeToPageOrder(b)
      ensures a < b
    {
      if b <= a { PageOrderMonotone(b, a, NUM_OF_FREE_LIST - 1); }
    }

    ghost predicate NoFitBelow(k: nat, size: nat, alignOrder: nat)
      reads this`entries, this`ranges, entries`order
    {
      |ranges| == |entries| && forall j :: 0 <= j < |entries| && entries[j].order < k ==>
        !CanHold(ranges[j], size, alignOrder)
    }

    /** Lists below the request's own size class hold only smaller entries. */
    lemma SmallerBelow(size: nat, alignOrder: nat)
      requires Core({}) && size > 0
      ensures NoFitBelow(SizeToPageOrder(size), size, alignOrder)
    {
      hide SizeToPageOrder;
      hide PhysicalMemoryManager.Core;
      RangeCount();
      forall j | 0 <= j < |entries| && entries[j].order < SizeToPageOrder(size)
        ensures !CanHold(ranges[j], size, alignOrder)
      {
        EntryFacts(j);
        OrderBelow(entries[j].Size(), size);
      }
    }

    /** The scan of `alloc`: from the request's size class upwards, along each list. */
    method FindFit(size: nat, alignOrder: nat) returns (found: MemoryEntry?, address: nat, ghost j: nat)
      requires Valid() && NonNegative(ranges) && size > 0
      ensures found == null ==> forall i :: 0 <= i < |ranges| ==> !CanHold(ranges[i], size, alignOrder)
      ensures found != null ==>
        && j < |entries| && entries[j] == found && ranges[j].Contains(address, EndAddress(address, size))
        && Aligned(address, Pow2(alignOrder)) && address == FirstAligned(ranges[j], alignOrder)
        && forall i :: 0 <= i < |ranges| && CanHold(ranges[i], size, alignOrder) ==>
          ranges[j].Size() <= ranges[i].Size()
    {
      hide PhysicalMemoryManager.Core;
      hide Pow2, Aligned, CanHold, SizeToPageOrder, Coalesced, Total;
      found, address, j := null, 0, 0;
      var k := PageOrderOfSize(size);
      SmallerBelow(size, alignOrder);
      RangeCount();
      while k < NUM_OF_FREE_LIST
        invariant k <= NUM_OF_FREE_LIST && found == null
        invariant NoFitBelow(k, size, alignOrder)
      {
        ListFacts(k);
        found, address, j := ScanList(k, size, alignOrder);
        if found != null {
          return;
        }
        k := k + 1;
      }
      assert forall i :: 0 <= i < |ranges| ==> entries[i].order < NUM_OF_FREE_LIST by { OrdersBelow(); }
    }

    lemma OrdersBelow()
      requires Core({})
      ensures forall i :: 0 <= i < |entries| ==> entries[i].order < NUM_OF_FREE_LIST
    {
    }

    /** The walk along list `k`. */
    method ScanList(k: nat, size: nat, alignOrder: nat) returns (found: MemoryEntry?, address: nat, ghost j: nat)
      requires Valid() && NonNegative(ranges) && size > 0 && k < NUM_OF_FREE_LIST && NoFitBelow(k, size, alignOrder)
      ensures found == null ==> NoFitBelow(k + 1, size, alignOrder)
      ensures found != null ==>
        && j < |entries| && entries[j] == found && ranges[j].Contains(address, EndAddress(address, size))
        && Aligned(address, Pow2(alignOrder)) && address == FirstAligned(ranges[j], alignOrder)
        && forall i :: 0 <= i < |ranges| && CanHold(ranges[i], size, alignOrder) ==>
          ranges[j].Size() <= ranges[i].Size()
    {
      hide PhysicalMemoryManager.Core;
      hide Pow2, Aligned, CanHold, SizeToPageOrder, Coalesced, Total;
      ListFacts(k);
      address, j := 0, 0;
      var entry := freeList[k];
      ghost var p := 0;
      while entry != null
        invariant p <= |lists[k]| && entry == if p < |lists[k]| then lists[k][p] else null
        invariant forall q :: 0 <= q < p ==> !CanHold(lists[k][q].AsRange(), size, alignOrder)
        decreases |lists[k]| - p
      {
        j := ListEntry(k, p);
        FitsIffCanHold(ranges[j], size, alignOrder);
        if entry.Size() >= size {
          var (aligned, available) := AlignAvailable(entry.start, entry.Size(), alignOrder);
          if available >= size {
            BestFit(k, p, j, size, alignOrder);
            return entry, aligned, j;
          }
        }
        assert !CanHold(lists[k][p].AsRange(), size, alignOrder);
        assert lists[k][p].listNext == if p + 1 < |lists[k]| then lists[k][p + 1] else null;
        entry := entry.listNext;
        p := p + 1;
      }
      found := null;
      NoneOnList(k, size, alignOrder);
    }

    /** The first entry of the scan that fits is a smallest one that fits. */
    lemma BestFit(k: nat, p: nat, j: nat, size: nat, alignOrder: nat)
      requires Core({}) && k < NUM_OF_FREE_LIST == |lists| && p < |lists[k]| && j < |entries| &&
        entries[j] == lists[k][p]
      requires NoFitBelow(k, size, alignOrder)
      requires forall q :: 0 <= q < p ==> !CanHold(lists[k][q].AsRange(), size, alignOrder)
      ensures forall i :: 0 <= i < |ranges| && CanHold(ranges[i], size, alignOrder) ==>
        ranges[j].Size() <= ranges[i].Size()
    {
      hide PhysicalMemoryManager.Core;
      hide CanHold;
      EntryFacts(j);
      forall i | 0 <= i < |ranges| && CanHold(ranges[i], size, alignOrder)
        ensures ranges[j].Size() <= ranges[i].Size()
      {
        EntryFacts(i);
        ScanAscends(k, p, i);
      }
    }

    lemma NoneOnList(k: nat, size: nat, alignOrder: nat)
      requires Core({}) && k < NUM_OF_FREE_LIST == |lists| && NoFitBelow(k, size, alignOrder)
      requires forall q :: 0 <= q < |lists[k]| ==> !CanHold(lists[k][q].AsRange(), size, alignOrder)
      ensures NoFitBelow(k + 1, size, alignOrder)
    {
      forall j | 0 <= j < |entries| && entries[j].order == k
        ensures !CanHold(ranges[j], size, alignOrder)
      {
        assert entries[j] in lists[k];
      }
    }

    /** alloc: sound, best fit and complete. */
    method Alloc(size: nat, alignOrder: nat) returns (r: Result<int>, ghost i: nat)
      requires Valid() && CleanFits(ranges, size, alignOrder)
      modifies this, freeList, nodes
      ensures Valid() && memorySize == old(memorySize) && nodes == old(nodes)
      ensures r.Err? ==> Untouched()
      ensures r == Err(InvalidSize) <==> size == 0 || old(freeMemorySize) <= size
      ensures r == Err(AddressNotAvailable) <==>
        0 < size < old(freeMemorySize) && forall j :: 0 <= j < |old(ranges)| ==>
          !CanHold(old(ranges)[j], size, alignOrder)
      ensures r != Err(InvalidAddress)
      ensures r == Err(EntryPoolRunOut) ==>
        old(pool) == [] && i < |old(ranges)| && old(ranges)[i].start < FirstAligned(old(ranges)[i], alignOrder)
      ensures r.Ok? ==>
        && r.value >= 0 && Aligned(r.value, Pow2(alignOrder))
        && Taken(old(ranges), i, r.value, EndAddress(r.value, size), old(|pool| + |ranges|))
        && freeMemorySize == old(freeMemorySize) - size
        && r.value == FirstAligned(old(ranges)[i], alignOrder)
        && (forall j :: 0 <= j < |old(ranges)| && CanHold(old(ranges)[j], size, alignOrder) ==>
              old(ranges)[i].Size() <= old(ranges)[j].Size())
    {
      hide PhysicalMemoryManager.Core, PhysicalMemoryManager.Taken;
      hide Pow2, Aligned, CanHold, SizeToPageOrder, Coalesced, Total, Takable, Refusal, Wide, FirstAligned;
      i := 0;
      if size == 0 || freeMemorySize <= size {
        return Err(InvalidSize), i;
      }
      var entry, address;
      ghost var j;
      entry, address, j := FindFit(size, alignOrder);
      if entry == null {
        return Err(AddressNotAvailable), i;
      }
      RangeCount();
      HeldBy(ranges, j, address, size, alignOrder);
      CleanBlock(ranges, j, pool == [], address, size);
      var err;
      err, i := DefineUsedMemory(address, size, entry, j);
      if err.Some? {
        return Err(err.value), j;
      }
      TakenWithin(old(ranges), i, address, EndAddress(address, size), old(|pool| + |ranges|));
      assert i == j by { TakenFrom(old(ranges), i, j, address, EndAddress(address, size)); }
      return Ok(address), i;
    }

    lemma TakenWithin(was: seq<Range>, i: nat, s: int, e: int, n: int)
      requires Taken(was, i, s, e, n)
      ensures i < |was| && was[i].Contains(s, e)
    {
    }

    // -------------------------------------------------------------- giving a block back

    /** `set_range` on a listed entry, between `Core` states. */
    method SetRangeBut(entry: MemoryEntry, s: int, e: int, ghost i: nat, ghost x: set<MemoryEntry>)
      requires CoreBut(x) && i < |entries| && entries[i] == entry && s < e
      modifies this`ranges, entry`start, entry`end
      ensures CoreBut(x + {entry}) && entry.start == s && entry.end == e
      ensures ranges == old(ranges)[i := Range(s, e)]
    {
      hide PhysicalMemoryManager.IndexOk, PhysicalMemoryManager.SizesOk;
      hide AddressLinked, RangesMatch;
      LinkedDistinct(entries, firstEntry);
      SetRangeAt(entry, s, e, i, x);
    }

    /** `chain_entry_to_free_list` on a listed entry whose size has changed. */
    method RechainBut(entry: MemoryEntry, oldSize: int, ghost i: nat, ghost x: set<MemoryEntry>)
      requires CoreBut(x) && i < |entries| && entries[i] == entry && entry in x
      requires 0 <= oldSize != entry.Size() && 0 <= entry.Size() && entry.order == SizeToPageOrder(oldSize)
      modifies this`lists, freeList, Listed()`listNext, Listed()`listPrev, entry`listNext, entry`listPrev, entry`order
      ensures CoreBut(x) && entry.order == SizeToPageOrder(entry.Size())
      ensures x == {entry} ==> CoreBut({})
    {
      hide PhysicalMemoryManager.IndexOk, PhysicalMemoryManager.SizesOk;
      hide SizeToPageOrder, AddressLinked, RangesMatch;
      assert x + {entry} == x;
      ChainEntry(entry, Some(oldSize), x);
    }

    /** Both neighbours touch the block: the left one grows twice while it is still chained by its old size,
        the right one is chained once more before it is deleted. */
    method MergeBoth(entry: MemoryEntry, next: MemoryEntry, start: int, end: int, ghost i: nat)
      requires CoreBut({}) && 0 < i < |entries| && entries[i - 1] == entry && entries[i] == next && entry != next
      requires |ranges| == |entries| && entry in nodes && next in nodes
      requires entry.start <= entry.end && entry.end + 1 == start <= end && end + 1 == next.start <= next.end
      requires entry.order == SizeToPageOrder(entry.Size()) && next.order == SizeToPageOrder(next.Size())
      modifies this`lists, this`entries, this`ranges, this`pool, this`firstEntry, freeList, nodes
      ensures CoreBut({})
      ensures ranges == Dropped(old(ranges)[i - 1 := Range(old(entry.start), old(next.end))], i)
      ensures pool == [next] + old(pool)
    {
      hide PhysicalMemoryManager.CoreBut;
      hide SizeToPageOrder, Dropped;
      var oldSize, nextOldSize := entry.Size(), next.Size();
      assert {} + {entry} == {entry} && {entry} + {next} == {entry, next};
      assert {entry, next} + {entry} == {entry, next} && {entry, next} - {next} == {entry};
      SetRangeBut(entry, entry.start, end, i - 1, {});
      SetRangeBut(next, start, next.end, i, {entry});
      RechainBut(next, nextOldSize, i, {entry, next});
      SetRangeBut(entry, entry.start, next.end, i - 1, {entry, next});
      assert ranges == old(ranges)[i - 1 := Range(old(entry.start), old(next.end))][i := Range(start, old(next.end))];
      DroppedIgnores(old(ranges)[i - 1 := Range(old(entry.start), old(next.end))], i, Range(start, old(next.end)));
      RemoveEntry(next, i, {entry, next});
      assert entries[i - 1] == entry by { DroppedAt(old(entries), i); }
      RechainBut(entry, oldSize, i - 1, {entry});
    }

    lemma DroppedIgnores(rs: seq<Range>, i: nat, r: Range)
      requires i < |rs|
      ensures Dropped(rs[i := r], i) == Dropped(rs, i)
    {
    }

    /** search_entry_previous_address_mut. */
    method SearchPrevious(address: int) returns (r: MemoryEntry?, ghost p: int)
      requires Books() && firstEntry != null
      ensures ranges != [] && p == PreviousIndex(ranges, address)
      ensures |entries| == |ranges| && r == if PreviousIndex(ranges, address) < 0 then null
        else entries[PreviousIndex(ranges, address)]
    {
      hide PhysicalMemoryManager.Core;
      hide FirstFrom, Coalesced, Wide, Total;
      NonEmpty();
      EntryFacts(0);
      var entry := firstEntry;
      ghost var i := 0;
      while entry.start < address
        invariant i < |entries| == |ranges| && entries[i] == entry && entry.AsRange() == ranges[i]
        invariant i > 0 ==> ranges[i - 1].start < address
        decreases |entries| - i
      {
        EntryFacts(i);
        if entry.next == null {
          FirstFromAt(ranges, address, i + 1);
          if entry.end <= address {
            return entry, i;
          } else {
            return entry.previous, i - 1;
          }
        }
        EntryFacts(i + 1);
        entry := entry.next;
        i := i + 1;
      }
      EntryFacts(i);
      FirstFromAt(ranges, address, i);
      return entry.previous, i - 1;
    }

    /** A new entry for a block that touches no neighbour. */
    method AddBlock(entry: MemoryEntry?, start: int, end: int, ghost i: nat)
      requires Books() && pool != [] && start < end && i <= |entries|
      requires if entry == null then i == 0 && firstEntry != null else 0 < i && entries[i - 1] == entry
      modifies this`lists, this`entries, this`ranges, this`pool, this`firstEntry, freeList, nodes
      ensures Core({}) && |old(ranges)| == |old(entries)| && ranges == Inserted(old(ranges), i, Range(start, end))
      ensures pool == old(pool)[1..]
    {
      hide PhysicalMemoryManager.Core;
      hide Inserted;
      PoolFacts();
      RangeCount();
      var created := CreateEntry();
      var r := created.value;
      SetRangeNew(r, start, end);
      Adopt(entry, r, i);
    }

    /** The new state after a block has joined the free bytes at place `i`. */
    ghost predicate Given(was: seq<Range>, i: nat, s: int, e: int, entriesAndPool: int)
      reads this`nodes, this`lists, this`entries, this`pool, this`firstEntry, this`ranges, freeList, nodes, entries
    {
      && i <= |was|
      && Core({}) && ranges == Merge(was, i, s, e)
      && |pool| + |ranges| == entriesAndPool
    }

    method GiveBoth(entry: MemoryEntry, next: MemoryEntry, start: int, end: int, ghost i: nat)
      requires Books() && 0 < i < |entries| && entries[i - 1] == entry && entries[i] == next &&
        Slot(ranges, i, start, end)
      requires entry.end + 1 == start && next.start == end + 1
      modifies this`lists, this`entries, this`ranges, this`pool, this`firstEntry, freeList, nodes
      ensures Given(old(ranges), i, start, end, old(|pool| + |ranges|))
    {
      hide PhysicalMemoryManager.Core, PhysicalMemoryManager.CoreBut;
      hide Merge;
      EntryFacts(i);
      EntryFacts(i - 1);
      MergeCases(ranges, i, start, end);
      CoreAsCoreBut();
      MergeBoth(entry, next, start, end, i);
      CoreAsCoreBut();
    }

    method GiveLeft(entry: MemoryEntry, start: int, end: int, ghost i: nat)
      requires Books() && 0 < i <= |entries| && entries[i - 1] == entry && Slot(ranges, i, start, end)
      requires entry.end + 1 == start && !(i < |ranges| && ranges[i].start == end + 1)
      modifies this`lists, this`ranges, freeList, nodes
      ensures Given(old(ranges), i, start, end, old(|pool| + |ranges|))
    {
      hide PhysicalMemoryManager.Core;
      hide Merge;
      EntryFacts(i - 1);
      MergeCases(ranges, i, start, end);
      Resize(entry, entry.start, end, i - 1, {});
    }

    method GiveRight(next: MemoryEntry, start: int, end: int, ghost i: nat)
      requires Books() && i < |entries| && entries[i] == next && Slot(ranges, i, start, end)
      requires next.start == end + 1 && !(i > 0 && |ranges| == |entries| && ranges[i - 1].end + 1 == start)
      modifies this`lists, this`ranges, freeList, nodes
      ensures Given(old(ranges), i, start, end, old(|pool| + |ranges|))
    {
      hide PhysicalMemoryManager.Core;
      hide Merge;
      EntryFacts(i);
      MergeCases(ranges, i, start, end);
      Resize(next, start, next.end, i, {});
    }

    method GiveNew(entry: MemoryEntry?, start: int, end: int, ghost i: nat)
      requires Books() && pool != [] && start < end && Slot(ranges, i, start, end) && !Touches(ranges, i, start, end)
      requires i <= |entries|
      requires if entry == null then i == 0 && firstEntry != null else 0 < i && entries[i - 1] == entry
      modifies this`lists, this`entries, this`ranges, this`pool, this`firstEntry, freeList, nodes
      ensures Given(old(ranges), i, start, end, old(|pool| + |ranges|))
    {
      hide PhysicalMemoryManager.Core;
      hide Merge;
      RangeCount();
      MergeCases(ranges, i, start, end);
      AddBlock(entry, start, end, i);
    }

    lemma GivenBooks(was: seq<Range>, i: nat, s: int, e: int, n: int)
      requires Given(was, i, s, e, n) && Coalesced(was) && Slot(was, i, s, e) && Wide(Merge(was, i, s, e))
      requires freeMemorySize == Total(was) + SizeOf(s, e) && 0 < memorySize
      ensures Books()
    {
      hide PhysicalMemoryManager.Core;
      hide Coalesced, Wide, Total;
      MergeCoalesced(was, i, s, e);
      MergeTotal(was, i, s, e);
      RangeCount();
    }

    /** The branches of define_free_memory for a block that touches no free byte. */
    method SettleFree(entry: MemoryEntry, start: int, end: int, ghost i: nat) returns (ok: bool)
      requires Books() && 0 < memorySize && Slot(ranges, i, start, end) && Wide(Merge(ranges, i, start, end))
      requires i <= |entries| && entries != [] && entry == entries[if i == 0 then 0 else i - 1]
      modifies this, freeList, nodes
      ensures ok <==> old(pool) != [] || Touches(old(ranges), i, start, end)
      ensures !ok ==> Untouched()
      ensures ok ==>
        && Books() && Given(old(ranges), i, start, end, old(|pool| + |ranges|))
        && freeMemorySize == old(freeMemorySize) + SizeOf(start, end)
      ensures memorySize == old(memorySize) && nodes == old(nodes)
    {
      hide PhysicalMemoryManager.Core, PhysicalMemoryManager.Given;
      hide Merge, Total;
      ghost var x := if i == 0 then 0 else i - 1;
      EntryFacts(x);
      var next := entry.next;
      if next != null { EntryFacts(x + 1); }
      var left := entry.end + 1 == start;
      var front := entry.previous == null && entry.start == end + 1;
      var right := next != null && next.start == end + 1;
      if left && right {
        GiveBoth(entry, next, start, end, i);
      } else if left {
        GiveLeft(entry, start, end, i);
      } else if front {
        GiveRight(entry, start, end, i);
      } else if right {
        GiveRight(next, start, end, i);
      } else {
        if pool == [] {
          return false;
        }
        NewIsWide(ranges, i, start, end);
        if end < entry.start {
          GiveNew(null, start, end, i);
        } else {
          GiveNew(entry, start, end, i);
        }
      }
      freeMemorySize := freeMemorySize + SizeOf(start, end);
      GivenBooks(old(ranges), i, start, end, old(|pool| + |ranges|));
      return true;
    }

    lemma NewIsWide(rs: seq<Range>, i: nat, s: int, e: int)
      requires Coalesced(rs) && Slot(rs, i, s, e) && !Touches(rs, i, s, e) && Wide(Merge(rs, i, s, e))
      ensures s < e
    {
      MergeCases(rs, i, s, e);
      assert Inserted(rs, i, Range(s, e))[i] == Range(s, e);
    }

    lemma BooksNonEmpty()
      requires Books() && 0 < memorySize
      ensures firstEntry != null && |entries| == |ranges| > 0 && firstEntry == entries[0]
    {
      EntryFacts(0);
    }

    /** What define_free_memory leaves behind, given its effect on the ranges. */
    twostate predicate FreeDone(o: FreeOutcome, new err: Option<MemoryError>)
      reads this, freeList, nodes, entries
    {
      match o
      case AlreadyFree => err == Some(InvalidAddress)
      case Freed(rs, added) =>
        if old(pool) == [] && |rs| > |old(ranges)| then err == Some(EntryPoolRunOut)
        else
          && err == None && ranges == rs && freeMemorySize == old(freeMemorySize) + added
          && |pool| + |ranges| == |old(pool)| + |old(ranges)|
    }

    /** The duplicate tests of define_free_memory: which of its three ways it goes, and from which entry. */
    method PlanFree(start: int, size: nat) returns (step: FreePlan, entry: MemoryEntry, ghost x: nat)
      requires Books() && 0 < memorySize && size > 0
      ensures ranges != [] && x < |entries| && entry == entries[x] && x == if PreviousIndex(ranges, start) < 0 then 0
        else PreviousIndex(ranges, start)
      ensures Step(ranges, start, EndAddress(start, size)) ==
        match step
        case Refuse => Done(AlreadyFree)
        case Retry(s, n) => Again(s, EndAddress(s, n))
        case Proceed => Done(Settle(ranges, x, start, EndAddress(start, size)))
    {
      hide PhysicalMemoryManager.Core;
      hide PreviousIndex, FirstFrom, Settle, Wide, Total;
      BooksNonEmpty();
      var end := EndAddress(start, size);
      var r;
      ghost var p;
      r, p := SearchPrevious(start);
      entry := if r == null then firstEntry else r;
      x := if p < 0 then 0 else p;
      EntryFacts(x);
      var next := entry.next;
      if next != null { EntryFacts(x + 1); }
      if entry.start <= start && entry.end >= end {
        step := Refuse;
      } else if entry.end >= start && entry.previous != null {
        step := Retry(entry.end + 1, end - entry.end);
      } else if entry.end == end {
        step := Retry(start, size - entry.Size());
      } else if next != null && next.start <= start {
        step := if next.end >= end then Refuse else Retry(next.end + 1, end - next.end);
      } else {
        step := Proceed;
      }
    }

    /** define_free_memory: the block joins the free bytes, or is refused because it is free already. */
    method DefineFreeMemory(start: int, size: nat) returns (err: Option<MemoryError>)
      requires Books() && 0 < memorySize
      requires size > 0 ==>
        ranges != [] && CanFree(ranges, start, EndAddress(start, size)) &&
        WideAfter(ranges, start, EndAddress(start, size))
      modifies this, freeList, nodes
      ensures Books() && memorySize == old(memorySize) && nodes == old(nodes)
      ensures err.Some? ==> Untouched()
      ensures size == 0 <==> err == Some(InvalidSize)
      ensures size > 0 ==> FreeDone(FreeEffect(old(ranges), start, EndAddress(start, size)), err)
      decreases size
    {
      hide PhysicalMemoryManager.Core;
      hide PreviousIndex, Step, Settle, Coalesced, Wide, Total, CanFree, WideAfter;
      if size == 0 {
        return Some(InvalidSize);
      }
      BooksNonEmpty();
      var end := EndAddress(start, size);
      var step, entry;
      ghost var x;
      step, entry, x := PlanFree(start, size);
      match step {
        case Refuse =>
          err := Some(InvalidAddress);
        case Retry(s, n) =>
          AgainFree(ranges, start, end);
          err := DefineFreeMemory(s, n);
        case Proceed =>
          ghost var i := SettledSlot(ranges, start, end);
          var ok := SettleFree(entry, start, end, i);
          err := if ok then None else Some(EntryPoolRunOut);
      }
    }

    /** The first entry of an empty manager. */
    method AddFirst(start: int, end: int)
      requires Books() && entries == [] && pool != [] && start < end
      modifies this`lists, this`entries, this`ranges, this`pool, this`firstEntry, freeList, nodes
      ensures Core({}) && entries != [] && ranges == [Range(start, end)] && |pool| == |old(pool)| - 1
    {
      hide PhysicalMemoryManager.Core;
      PoolFacts();
      var created := CreateEntry();
      var r := created.value;
      SetRangeNew(r, start, end);
      AdoptFirst(r);
    }

    method AdoptFirst(r: MemoryEntry)
      requires Core({r}) && entries == [] && 0 <= r.Size()
      requires r.next == null && r.previous == null && r.listNext == null && r.listPrev == null && r.enabled
      modifies this`lists, this`entries, this`ranges, this`firstEntry, freeList
      modifies Listed()`listNext, Listed()`listPrev, r`listNext, r`listPrev, r`order
      ensures Core({}) && entries == [r] && ranges == [r.AsRange()]
    {
      hide PhysicalMemoryManager.IndexOk, PhysicalMemoryManager.SizesOk;
      hide SizeToPageOrder, Inserted;
      firstEntry := r;
      ChainEntry(r, None, {});
      AdoptedPopulated([], r, 0);
      entries, ranges := [r], [r.AsRange()];
      assert Inserted([], 0, r) == [r] by { InsertedAt([], 0, r); }
    }

    /** free: give a block back, or add it to the managed memory while initializing. */
    method Free(start: int, size: nat, isInitializing: bool) returns (err: Option<MemoryError>)
      requires Valid()
      requires memorySize == 0 && (isInitializing || size == 0) ==> size >= 2
      requires memorySize > 0 && size > 0 ==>
                 && ranges != [] && CanFree(ranges, start, EndAddress(start, size))
                 && WideAfter(ranges, start, EndAddress(start, size))
      modifies this, freeList, nodes
      ensures Valid() && nodes == old(nodes)
      ensures err.Some? ==> Untouched()
      ensures err == Some(InvalidSize) <==>
        (size == 0 && old(memorySize) > 0) || (!isInitializing && old(memorySize) < old(freeMemorySize) + size)
      ensures err != Some(InvalidSize) && old(memorySize) == 0 ==>
                if old(pool) == [] then err == Some(EntryPoolRunOut)
                else err == None && ranges == [Range(start, EndAddress(start, size))] && |pool| == |old(pool)| - 1
      ensures err != Some(InvalidSize) && old(memorySize) > 0 ==>
        FreeDone(FreeEffect(old(ranges), start, EndAddress(start, size)), err)
      ensures err == None ==> memorySize == if old(memorySize) < freeMemorySize then freeMemorySize else old(memorySize)
    {
      hide PhysicalMemoryManager.Core;
      hide Coalesced, CanFree, WideAfter, FreeEffect;
      if memorySize < freeMemorySize + size && !isInitializing {
        return Some(InvalidSize);
      }
      if memorySize == 0 {
        if pool == [] {
          return Some(EntryPoolRunOut);
        }
        RangeCount();
        AddFirst(start, EndAddress(start, size));
        memorySize := size;
        freeMemorySize := size;
        OneBook(start, EndAddress(start, size));
        return None;
      }
      err := DefineFreeMemory(start, size);
      if err.Some? {
        return;
      }
      if memorySize < freeMemorySize {
        memorySize := freeMemorySize;
      }
    }

    lemma OneBook(s: int, e: int)
      requires Core({}) && ranges == [Range(s, e)] && s < e && entries != []
      requires memorySize == freeMemorySize == SizeOf(s, e)
      ensures Valid()
    {
      hide PhysicalMemoryManager.Core;
      TotalOne(Range(s, e));
    }

    // -------------------------------------------------------------- set-up

    constructor ()
      ensures Valid() && memorySize == 0 && ranges == [] && pool == [] && nodes == {} && fresh(freeList)
    {
      memorySize, freeMemorySize, firstEntry, pool := 0, 0, null, [];
      freeList := new MemoryEntry?[NUM_OF_FREE_LIST](_ => null);
      nodes, entries, ranges := {}, [], [];
      lists := seq(NUM_OF_FREE_LIST, _ => []);
    }

    lemma GrownPopulated(was: set<MemoryEntry>, oldPool: seq<MemoryEntry>, r: MemoryEntry)
      requires r !in was && r.order == -1 && nodes == was + {r}
      requires Populated(was, entries, oldPool, {})
      ensures Populated(nodes, entries, [r] + oldPool, {})
    {
      forall e | e in nodes && e.order == -1
        ensures e in [r] + oldPool
      {
        if e != r { assert e in oldPool; }
      }
    }

    /** One object of a new pool page. */
    method AddPoolEntry()
      requires Valid()
      modifies this`pool, this`nodes
      ensures Valid() && |pool| == |old(pool)| + 1 && fresh(nodes - old(nodes)) && old(nodes) <= nodes
    {
      hide AllChained, OrdersMatch, Ascending, Populated;
      hide AddressLinked, RangesMatch, Chained, SizeToPageOrder, Coalesced, Wide, Total;
      var r := new MemoryEntry;
      r.order := -1;
      ghost var was, heads := nodes, freeList[..];
      assert AllChained(lists, heads, was);
      nodes := nodes + {r};
      pool := [r] + pool;
      GrownNodes(was, heads, r);
      GrownPopulated(was, old(pool), r);
      assert freeList[..] == heads;
    }

    lemma GrownNodes(was: set<MemoryEntry>, heads: seq<MemoryEntry?>, r: MemoryEntry)
      requires r !in was && r.order == -1 && nodes == was + {r}
      requires AllChained(lists, heads, was) && OrdersMatch(lists, was) && Ascending(lists, was, {})
      ensures AllChained(lists, heads, nodes) && OrdersMatch(lists, nodes) && Ascending(lists, nodes, {})
    {
      hide Chained, SizeToPageOrder;
    }

    /** add_memory_entry_pool, for a page that holds `n` entries. */
    method AddMemoryEntryPool(n: nat)
      requires Valid()
      modifies this`pool, this`nodes
      ensures Valid() && |pool| == |old(pool)| + n && fresh(nodes - old(nodes)) && old(nodes) <= nodes
    {
      hide PhysicalMemoryManager.Valid;
      for k := 0 to n
        invariant Valid() && |pool| == |old(pool)| + k && fresh(nodes - old(nodes)) && old(nodes) <= nodes
      {
        AddPoolEntry();
      }
    }

    lemma DroppedOrdered(ll: seq<seq<MemoryEntry>>, k: nat, i: nat)
      requires k < |ll| && i < |ll[k]|
      requires lists == ll[k := Dropped(ll[k], i)]
      requires Distinct(ll[k])
      requires forall q, j :: 0 <= q < |ll| && 0 <= j < |ll[q]| ==>
        ll[q][j] in nodes && (ll[q][j] == ll[k][i] || ll[q][j].order == q)
      requires forall e :: e in nodes && e != ll[k][i] && e.order != -1 ==> 0 <= e.order < |ll| && e in ll[e.order]
      requires ll[k][i].order == -1
      requires forall q, j :: 0 <= q < |ll| && 0 <= j < |ll[q]| && ll[q][j] == ll[k][i] ==> q == k
      ensures Ordered()
    {
      var x := ll[k][i];
      var d := Dropped(ll[k], i);
      forall q, j | 0 <= q < |lists| && 0 <= j < |lists[q]|
        ensures lists[q][j] in nodes && lists[q][j].order == q
      {
        if q == k { assert d[j] == ll[k][if j < i then j else j + 1]; }
      }
      forall e | e in nodes && e.order != -1
        ensures 0 <= e.order < |lists| && e in lists[e.order]
      {
        if e.order == k {
          var j :| 0 <= j < |ll[k]| && ll[k][j] == e;
          assert d[if j < i then j else j - 1] == e;
        }
      }
    }
  }
}
