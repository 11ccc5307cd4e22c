/** Free memory as values: address-ordered lists of inclusive ranges, the bytes they cover,
    and the two updates "take a block out" and "give a block back". */
module Ranges {
  import opened DataType

  datatype Range = Range(start: int, end: int) {
    function Size(): int { SizeOf(start, end) }
    predicate Contains(s: int, e: int) { start <= s && e <= end }
    predicate Misses(s: int, e: int) { end < s || e < start }
  }

  /** Address order, with at least one used byte between neighbours: disjoint and fully coalesced. */
  ghost predicate Coalesced(rs: seq<Range>) {
    && (forall i :: 0 <= i < |rs| ==> rs[i].start <= rs[i].end)
    && (forall i, j :: 0 <= i < j < |rs| ==> rs[i].end + 1 < rs[j].start)
  }

  /** Every range has at least two bytes, which is what `MemoryEntry::set_range` asserts. */
  ghost predicate Wide(rs: seq<Range>) {
    forall i :: 0 <= i < |rs| ==> rs[i].start < rs[i].end
  }

  ghost predicate Covered(rs: seq<Range>, b: int) {
    exists i :: 0 <= i < |rs| && rs[i].start <= b <= rs[i].end
  }

  /** The set of free bytes. */
  ghost function Bytes(rs: seq<Range>): iset<int> { iset b | Covered(rs, b) }

  predicate Within(b: int, s: int, e: int) { s <= b <= e }

  ghost function Block(s: int, e: int): iset<int> { iset b | Within(b, s, e) }

  function Total(rs: seq<Range>): int {
    if rs == [] then 0 else Total(rs[..|rs| - 1]) + rs[|rs| - 1].Size()
  }

  lemma {:induction false} TotalConcat(a: seq<Range>, b: seq<Range>)
    ensures Total(a + b) == Total(a) + Total(b)
    decreases |b|
  {
    if b == [] {
      assert a + b == a;
    } else {
      assert (a + b)[..|a + b| - 1] == a + b[..|b| - 1];
      TotalConcat(a, b[..|b| - 1]);
    }
  }

  lemma TotalSplit3(a: seq<Range>, b: seq<Range>, c: seq<Range>)
    ensures Total(a + b + c) == Total(a) + Total(b) + Total(c)
  {
    TotalConcat(a + b, c);
    TotalConcat(a, b);
  }

  lemma TotalOne(r: Range)
    ensures Total([r]) == r.Size()
  {
    assert [r][..0] == [];
  }

  lemma {:induction false} TotalPositive(rs: seq<Range>)
    requires Coalesced(rs)
    ensures Total(rs) >= |rs|
  {
    if rs != [] { TotalPositive(rs[..|rs| - 1]); }
  }

  lemma CoveredConcat(a: seq<Range>, b: seq<Range>, x: int)
    ensures Covered(a + b, x) <==> Covered(a, x) || Covered(b, x)
  {
    if Covered(a + b, x) {
      var k :| 0 <= k < |a + b| && (a + b)[k].start <= x <= (a + b)[k].end;
      if k >= |a| { assert b[k - |a|] == (a + b)[k]; }
    }
    if Covered(a, x) {
      var k :| 0 <= k < |a| && a[k].start <= x <= a[k].end;
      assert (a + b)[k] == a[k];
    }
    if Covered(b, x) {
      var k :| 0 <= k < |b| && b[k].start <= x <= b[k].end;
      assert (a + b)[|a| + k] == b[k];
    }
  }

  lemma CoveredOne(r: Range, x: int)
    ensures Covered([r], x) <==> r.start <= x <= r.end
  {
    assert [r][0] == r;
  }

  // ---------------------------------------------------------------- taking a block out

  /** What is left of `r` around the block `s..e`. */
  function Pieces(r: Range, s: int, e: int): seq<Range> {
    (if r.start < s then [Range(r.start, s - 1)] else []) + (if e < r.end then [Range(e + 1, r.end)] else [])
  }

  function Carve(rs: seq<Range>, i: nat, s: int, e: int): seq<Range>
    requires i < |rs|
  {
    rs[..i] + Pieces(rs[i], s, e) + rs[i + 1..]
  }

  /** No remainder of one byte: the condition under which `set_range` accepts the pieces. */
  predicate CleanCut(r: Range, s: int, e: int) {
    s - r.start != 1 && r.end - e != 1
  }

  lemma CarveCoalesced(rs: seq<Range>, i: nat, s: int, e: int)
    requires Coalesced(rs) && i < |rs| && rs[i].Contains(s, e) && s <= e
    ensures Coalesced(Carve(rs, i, s, e))
    ensures Wide(rs) && CleanCut(rs[i], s, e) ==> Wide(Carve(rs, i, s, e))
  {
  }

  lemma CarveCovered(rs: seq<Range>, i: nat, s: int, e: int, x: int)
    requires Coalesced(rs) && i < |rs| && rs[i].Contains(s, e) && s <= e
    ensures Covered(Carve(rs, i, s, e), x) <==> Covered(rs, x) && !(s <= x <= e)
  {
    var r := rs[i];
    var a := if r.start < s then [Range(r.start, s - 1)] else [];
    var b := if e < r.end then [Range(e + 1, r.end)] else [];
    CoveredConcat(rs[..i] + (a + b), rs[i + 1..], x);
    CoveredConcat(rs[..i], a + b, x);
    CoveredConcat(a, b, x);
    if a != [] { CoveredOne(a[0], x); }
    if b != [] { CoveredOne(b[0], x); }
    CoveredEnds(rs, i, x);
  }

  lemma CarveBytes(rs: seq<Range>, i: nat, s: int, e: int)
    requires Coalesced(rs) && i < |rs| && rs[i].Contains(s, e) && s <= e
    ensures Bytes(Carve(rs, i, s, e)) == Bytes(rs) - Block(s, e)
  {
    forall x ensures Covered(Carve(rs, i, s, e), x) <==> Covered(rs, x) && !(s <= x <= e) {
      CarveCovered(rs, i, s, e, x);
    }
  }

  lemma CarveTotal(rs: seq<Range>, i: nat, s: int, e: int)
    requires i < |rs| && rs[i].Contains(s, e) && s <= e
    ensures Total(Carve(rs, i, s, e)) == Total(rs) - SizeOf(s, e)
  {
    var r := rs[i];
    var a := if r.start < s then [Range(r.start, s - 1)] else [];
    var b := if e < r.end then [Range(e + 1, r.end)] else [];
    TotalSplit3(rs[..i], a + b, rs[i + 1..]);
    TotalConcat(a, b);
    if a != [] { TotalOne(a[0]); }
    if b != [] { TotalOne(b[0]); }
    TotalEnds(rs, i);
  }

  // ---------------------------------------------------------------- giving a block back

  /** Entries `lo..hi` replaced by the one range `r`. */
  function Replace(rs: seq<Range>, lo: nat, hi: nat, r: Range): seq<Range>
    requires lo <= hi <= |rs|
  {
    rs[..lo] + [r] + rs[hi..]
  }

  lemma CoalescedConcat(a: seq<Range>, b: seq<Range>)
    requires Coalesced(a) && Coalesced(b)
    requires a != [] && b != [] ==> a[|a| - 1].end + 1 < b[0].start
    ensures Coalesced(a + b)
    ensures Wide(a) && Wide(b) ==> Wide(a + b)
  {
    forall i, j | 0 <= i < j < |a + b|
      ensures (a + b)[i].end + 1 < (a + b)[j].start
    {
      if i < |a| <= j {
        assert a[i].end <= a[|a| - 1].end;
        assert b[0].start <= b[j - |a|].start;
      }
    }
  }

  lemma ReplaceCoalesced(rs: seq<Range>, lo: nat, hi: nat, r: Range)
    requires Coalesced(rs) && lo <= hi <= |rs| && r.start <= r.end
    requires lo > 0 ==> rs[lo - 1].end + 1 < r.start
    requires hi < |rs| ==> r.end + 1 < rs[hi].start
    ensures Coalesced(Replace(rs, lo, hi, r))
    ensures Wide(rs) && r.start < r.end ==> Wide(Replace(rs, lo, hi, r))
  {
    CoalescedConcat(rs[..lo], [r]);
    CoalescedConcat(rs[..lo] + [r], rs[hi..]);
  }

  /** The block `s..e`, lying between entries `i - 1` and `i`, joined with the neighbours it touches. */
  function Merge(rs: seq<Range>, i: nat, s: int, e: int): seq<Range>
    requires i <= |rs|
  {
    var left := i > 0 && rs[i - 1].end + 1 == s;
    var right := i < |rs| && rs[i].start == e + 1;
    Replace(rs, if left then i - 1 else i, if right then i + 1 else i,
            Range(if left then rs[i - 1].start else s, if right then rs[i].end else e))
  }

  /** `i` is the place of a block that touches no free byte. */
  ghost predicate Slot(rs: seq<Range>, i: nat, s: int, e: int) {
    && i <= |rs|
    && s <= e
    && (forall j :: 0 <= j < i ==> rs[j].end < s)
    && (forall j :: i <= j < |rs| ==> e < rs[j].start)
  }

  lemma MergeCoalesced(rs: seq<Range>, i: nat, s: int, e: int)
    requires Coalesced(rs) && Slot(rs, i, s, e)
    ensures Coalesced(Merge(rs, i, s, e))
    ensures Wide(rs) && s < e ==> Wide(Merge(rs, i, s, e))
  {
    var left := i > 0 && rs[i - 1].end + 1 == s;
    var right := i < |rs| && rs[i].start == e + 1;
    ReplaceCoalesced(rs, if left then i - 1 else i, if right then i + 1 else i,
                     Range(if left then rs[i - 1].start else s, if right then rs[i].end else e));
  }

  lemma CoveredEnds(rs: seq<Range>, i: nat, x: int)
    requires i <= |rs|
    ensures Covered(rs, x) <==> Covered(rs[..i], x) || Covered(rs[i..], x)
    ensures i > 0 ==> (Covered(rs[..i], x) <==> Covered(rs[..i - 1], x) || rs[i - 1].start <= x <= rs[i - 1].end)
    ensures i < |rs| ==> (Covered(rs[i..], x) <==> rs[i].start <= x <= rs[i].end || Covered(rs[i + 1..], x))
  {
    assert rs == rs[..i] + rs[i..];
    CoveredConcat(rs[..i], rs[i..], x);
    if i > 0 {
      assert rs[..i] == rs[..i - 1] + [rs[i - 1]];
      CoveredConcat(rs[..i - 1], [rs[i - 1]], x);
      CoveredOne(rs[i - 1], x);
    }
    if i < |rs| {
      assert rs[i..] == [rs[i]] + rs[i + 1..];
      CoveredConcat([rs[i]], rs[i + 1..], x);
      CoveredOne(rs[i], x);
    }
  }

  lemma TotalFirst(r: Range, rs: seq<Range>)
    ensures Total([r] + rs) == r.Size() + Total(rs)
  {
    TotalConcat([r], rs);
    TotalOne(r);
  }

  lemma TotalPrefix(rs: seq<Range>, i: nat)
    requires 0 < i <= |rs|
    ensures Total(rs[..i]) == Total(rs[..i - 1]) + rs[i - 1].Size()
  {
    assert rs[..i][..i - 1] == rs[..i - 1];
  }

  lemma TotalEnds(rs: seq<Range>, i: nat)
    requires i <= |rs|
    ensures Total(rs) == Total(rs[..i]) + Total(rs[i..])
    ensures i > 0 ==> Total(rs[..i]) == Total(rs[..i - 1]) + rs[i - 1].Size()
    ensures i < |rs| ==> Total(rs[i..]) == rs[i].Size() + Total(rs[i + 1..])
  {
    hide Total;
    if i > 0 { TotalPrefix(rs, i); }
    assert rs == rs[..i] + rs[i..];
    TotalConcat(rs[..i], rs[i..]);
    if i < |rs| {
      TotalFirst(rs[i], rs[i + 1..]);
      assert rs[i..] == [rs[i]] + rs[i + 1..];
    }
  }

  lemma MergeCovered(rs: seq<Range>, i: nat, s: int, e: int, x: int)
    requires Coalesced(rs) && Slot(rs, i, s, e)
    ensures Covered(Merge(rs, i, s, e), x) <==> Covered(rs, x) || s <= x <= e
  {
    var left := i > 0 && rs[i - 1].end + 1 == s;
    var right := i < |rs| && rs[i].start == e + 1;
    var lo := if left then i - 1 else i;
    var hi := if right then i + 1 else i;
    var r := Range(if left then rs[i - 1].start else s, if right then rs[i].end else e);
    CoveredConcat(rs[..lo] + [r], rs[hi..], x);
    CoveredConcat(rs[..lo], [r], x);
    CoveredOne(r, x);
    CoveredEnds(rs, i, x);
  }

  lemma MergeBytes(rs: seq<Range>, i: nat, s: int, e: int)
    requires Coalesced(rs) && Slot(rs, i, s, e)
    ensures Bytes(Merge(rs, i, s, e)) == Bytes(rs) + Block(s, e)
  {
    forall x ensures Covered(Merge(rs, i, s, e), x) <==> Covered(rs, x) || s <= x <= e {
      MergeCovered(rs, i, s, e, x);
    }
  }

  lemma MergeTotal(rs: seq<Range>, i: nat, s: int, e: int)
    requires Coalesced(rs) && Slot(rs, i, s, e)
    ensures Total(Merge(rs, i, s, e)) == Total(rs) + SizeOf(s, e)
  {
    var left := i > 0 && rs[i - 1].end + 1 == s;
    var right := i < |rs| && rs[i].start == e + 1;
    var lo := if left then i - 1 else i;
    var hi := if right then i + 1 else i;
    var r := Range(if left then rs[i - 1].start else s, if right then rs[i].end else e);
    TotalSplit3(rs[..lo], [r], rs[hi..]);
    TotalOne(r);
    TotalEnds(rs, i);
  }

  // ---------------------------------------------------------------- what define_free_memory does

  /** `added` is what the code adds to `free_memory_size`. */
  datatype FreeOutcome = Freed(ranges: seq<Range>, added: int) | AlreadyFree

  /** Index of the first entry starting at or after `address`. */
  function FirstFrom(rs: seq<Range>, address: int): (k: nat)
    ensures k <= |rs|
    ensures forall j :: 0 <= j < k ==> rs[j].start < address
    ensures k < |rs| ==> address <= rs[k].start
  {
    if rs == [] || address <= rs[0].start then 0 else 1 + FirstFrom(rs[1..], address)
  }

  /** search_entry_previous_address_mut, with -1 for None. */
  function PreviousIndex(rs: seq<Range>, address: int): (p: int)
    requires rs != []
    ensures -1 <= p < |rs| && (p >= 0 ==> rs[p].start < address)
  {
    var k := FirstFrom(rs, address);
    if k < |rs| then k - 1 else if rs[k - 1].end <= address then k - 1 else k - 2
  }

  /** The branches of define_free_memory after the duplicate tests, for entry `x`. */
  function Settle(rs: seq<Range>, x: nat, s: int, e: int): (o: FreeOutcome)
    requires x < |rs|
    ensures o.Freed?
  {
    var entry := rs[x];
    var left := entry.end + 1 == s;
    var e1 := if left then Range(entry.start, e) else entry;
    var front := x == 0 && e1.start == e + 1;
    var e2 := if front then Range(s, e1.end) else e1;
    if x + 1 < |rs| then
      var next := rs[x + 1];
      var right := next.start == e + 1;
      var n1 := if right then Range(s, next.end) else next;
      var processed := left || front || right;
      var join := n1.start == e2.end + 1 || (processed && entry.end + 1 >= n1.start);
      var e3 := if join then Range(e2.start, if e2.end > n1.end then e2.end else n1.end) else e2;
      var mid := if join then [] else [n1];
      if processed then Freed(rs[..x] + [e3] + mid + rs[x + 2..], SizeOf(s, e))
      else if e < e3.start then Freed(rs[..x] + [Range(s, e), e3] + mid + rs[x + 2..], SizeOf(s, e))
      else Freed(rs[..x] + [e3, Range(s, e)] + mid + rs[x + 2..], SizeOf(s, e))
    else if left || front then Freed(rs[..x] + [e2], SizeOf(s, e))
    else if entry.end < s then Freed(rs + [Range(s, e)], SizeOf(s, e))
    else Freed(rs[..x] + [Range(s, e), entry], SizeOf(s, e))
  }

  /** One activation of define_free_memory: it finishes, or calls itself on a smaller block. */
  datatype FreeStep = Done(outcome: FreeOutcome) | Again(s: int, e: int)

  function Step(rs: seq<Range>, s: int, e: int): (o: FreeStep)
    requires Coalesced(rs) && rs != [] && s <= e
    ensures o.Again? ==> o.s <= o.e && o.e - o.s < e - s
  {
    var p := PreviousIndex(rs, s);
    var x := if p < 0 then 0 else p;
    var entry := rs[x];
    if entry.start <= s && entry.end >= e then Done(AlreadyFree)
    else if entry.end >= s && x != 0 then Again(entry.end + 1, e)
    else if entry.end == e then Again(s, e - entry.Size())
    else if x + 1 < |rs| && rs[x + 1].start <= s then
      if rs[x + 1].end >= e then Done(AlreadyFree) else Again(rs[x + 1].end + 1, e)
    else Done(Settle(rs, x, s, e))
  }

  /** define_free_memory on the list of ranges, with its recursion on duplicated areas. */
  function FreeEffect(rs: seq<Range>, s: int, e: int): (o: FreeOutcome)
    requires Coalesced(rs) && rs != [] && s <= e
    decreases e - s
  {
    match Step(rs, s, e)
    case Done(o) => o
    case Again(s', e') => FreeEffect(rs, s', e')
  }
}
