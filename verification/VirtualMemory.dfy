/** The region list of src/kernel/memory_manager/virtual_memory_manager.rs: first-fit search and ordered insertion. */
module VirtualMemory {
  import opened Collections
  import opened PageTable

  /** A VirtualMemoryEntry: inclusive address range, attributes, and the frame behind each mapped page index. */
  datatype Entry = Entry(start: nat, end: nat, attr: Attr, pages: map<nat, nat>)

  /** What the option flags select. */
  datatype Area = IoMap | AllocArea | UserStack

  datatype Window = Window(lo: nat, hi: nat)

  const HIGH_MEMORY_START_ADDRESS: nat := 0xffff_0000_0000_0000
  const MALLOC_START_ADDRESS: nat := 0xffff_ff20_0000_0000
  const MALLOC_END_ADDRESS: nat := 0xffff_ff4f_ffff_ffff
  const MAP_START_ADDRESS: nat := 0xffff_ff50_0000_0000
  const MAP_END_ADDRESS: nat := 0xffff_ff7f_ffff_ffff
  const USER_STACK_START_ADDRESS: nat := 0x0000_7000_0000_0000
  const USER_STACK_END_ADDRESS: nat := 0x0000_7fff_ffff_ffff

  function WindowOf(area: Area): (w: Window)
    ensures w.lo % 4096 == 0 && (w.hi + 1) % 4096 == 0 && w.lo < w.hi
  {
    match area
    case IoMap => Window(MAP_START_ADDRESS, MAP_END_ADDRESS)
    case AllocArea => Window(MALLOC_START_ADDRESS, MALLOC_END_ADDRESS)
    case UserStack => Window(USER_STACK_START_ADDRESS, USER_STACK_END_ADDRESS)
  }

  predicate Contains(lo: nat, hi: nat, a: nat) { lo <= a <= hi }

  /** is_overlapped: one of the four end points lies in the other range. */
  predicate IsOverlapped(lo: nat, hi: nat, lo': nat, hi': nat) {
    Contains(lo, hi, lo') || Contains(lo, hi, hi') || Contains(lo', hi', lo) || Contains(lo', hi', hi)
  }

  /** The four tests find exactly the ranges with a common address. */
  lemma OverlapMeansShared(lo: nat, hi: nat, lo': nat, hi': nat)
    requires lo <= hi && lo' <= hi'
    ensures IsOverlapped(lo, hi, lo', hi') <==> exists a: nat :: Contains(lo, hi, a) && Contains(lo', hi', a)
  {
    if IsOverlapped(lo, hi, lo', hi') {
      var a := if lo <= lo' then lo' else lo;
      assert Contains(lo, hi, a) && Contains(lo', hi', a);
    }
  }

  /** Address order, without overlap. */
  ghost predicate Sorted(es: seq<Entry>) {
    && (forall i :: 0 <= i < |es| ==> es[i].start <= es[i].end)
    && (forall i, j :: 0 <= i < j < |es| ==> es[i].end < es[j].start)
  }

  /** `size` bytes at `a` lie in the window and miss every region. */
  ghost predicate Fits(es: seq<Entry>, size: nat, w: Window, a: nat) {
    && w.lo <= a && a + size - 1 <= w.hi
    && forall i :: 0 <= i < |es| ==> a + size - 1 < es[i].start || es[i].end < a
  }

  /** find_usable_memory_area: the least address that fits, and None only if none does. */
  method FindUsableMemoryArea(es: seq<Entry>, size: nat, area: Area) returns (r: Option<nat>)
    requires Sorted(es) && size > 0
    ensures r.Some? ==> Fits(es, size, WindowOf(area), r.value)
    ensures forall a: nat :: Fits(es, size, WindowOf(area), a) ==> r.Some? && r.value <= a
    ensures r.Some? ==> r.value == WindowOf(area).lo || exists k :: 0 <= k < |es| && r.value == es[k].end + 1
  {
    var w := WindowOf(area);
    var available := w.lo;
    for k := 0 to |es|
      invariant w.lo <= available && (available == w.lo || (k > 0 && available == es[k - 1].end + 1))
      invariant forall j :: 0 <= j < k ==> es[j].end < available
      invariant forall a: nat :: Fits(es, size, w, a) ==> available <= a
    {
      var e := es[k];
      if e.end >= w.lo {
        var end := available + size - 1;
        if end > w.hi {
          return None;
        }
        if !IsOverlapped(available, end, e.start, e.end) {
          assert k + 1 < |es| ==> !IsOverlapped(available, end, es[k + 1].start, es[k + 1].end);
          assert k > 0 ==> !IsOverlapped(available, end, es[k - 1].start, es[k - 1].end);
          return Some(available);
        }
        available := e.end + 1;
      }
    }
    return if available + size - 1 > w.hi then None else Some(available);
  }

  /** find_previous_entry_mut. */
  method FindPreviousEntry(es: seq<Entry>, address: nat) returns (r: Option<nat>)
    requires Sorted(es)
    ensures r.Some? ==> r.value < |es| && es[r.value].start <= address
    ensures r.Some? && r.value + 1 < |es| ==> address < es[r.value + 1].start
    ensures r.None? ==> es == [] || address < es[0].start || es[|es| - 1].start <= address <= es[|es| - 1].end
  {
    for k := 0 to |es|
      invariant forall j :: 0 <= j < k ==> es[j].start <= address
      invariant k == |es| > 0 ==> address <= es[k - 1].end
    {
      if es[k].start > address {
        return if k == 0 then None else Some(k - 1);
      } else if k + 1 == |es| && es[k].end < address {
        return Some(k);
      }
    }
    return None;
  }

  lemma InsertedSorted(es: seq<Entry>, k: nat, e: Entry)
    requires Sorted(es) && k <= |es| && e.start <= e.end
    requires (k > 0 ==> es[k - 1].end < e.start) && (k < |es| ==> e.end < es[k].start)
    ensures Sorted(Inserted(es, k, e))
  {
    hide Inserted;
    var r := Inserted(es, k, e);
    InsertedIndex(es, k, e, 0);
    forall i | 0 <= i < |r| ensures r[i].start <= r[i].end {
      InsertedIndex(es, k, e, i);
    }
    forall i, j | 0 <= i < j < |r| ensures r[i].end < r[j].start {
      InsertedIndex(es, k, e, i);
      InsertedIndex(es, k, e, j);
      if i == k && k < j - 1 { assert es[k].start <= es[k].end < es[j - 1].start; }
      if j == k && i < k - 1 { assert es[i].end < es[k - 1].start <= es[k - 1].end; }
    }
  }

  /** The region misses all others. */
  ghost predicate Clear(es: seq<Entry>, e: Entry) {
    e.start <= e.end && forall i :: 0 <= i < |es| ==> e.end < es[i].start || es[i].end < e.start
  }

  /** insert_vm_map_entry_into_list: a region that misses all others is inserted in its place, and "Cannot insert"
      is never reached for it. */
  method InsertEntry(es: seq<Entry>, e: Entry) returns (r: Option<nat>)
    requires Sorted(es) && e.start <= e.end
    ensures Clear(es, e) ==> r.Some?
    ensures r.Some? ==> r.value <= |es|
    ensures r.Some? && Clear(es, e) ==> Sorted(Inserted(es, r.value, e))
  {
    hide Inserted;
    r := None;
    if es == [] {
      r := Some(0);
    } else {
      var previous := FindPreviousEntry(es, e.start);
      if previous.Some? {
        r := Some(previous.value + 1);
      } else if e.end < es[0].start {
        r := Some(0);
      }
    }
    if r.Some? && Clear(es, e) { InsertedSorted(es, r.value, e); }
  }

  /** find_entry_mut: the region that holds the address. */
  method FindEntry(es: seq<Entry>, address: nat) returns (r: Option<nat>)
    ensures r.Some? ==> r.value < |es| && Contains(es[r.value].start, es[r.value].end, address)
    ensures r.None? ==> forall i :: 0 <= i < |es| ==> !Contains(es[i].start, es[i].end, address)
  {
    for k := 0 to |es|
      invariant forall i :: 0 <= i < k ==> !Contains(es[i].start, es[i].end, address)
    {
      if Contains(es[k].start, es[k].end, address) {
        return Some(k);
      }
    }
    return None;
  }
}
