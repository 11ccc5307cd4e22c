/** The alignment helpers of physical_memory_manager.rs, on unbounded integers: `x & !(a - 1)`
    for a power of two `a` is `x - x % a`. */
module Alignment {
  import opened DataType
  import opened Ranges

  predicate Aligned(x: nat, a: nat)
    requires a > 0
  {
    x % a == 0
  }

  function Down(x: nat, a: nat): nat
    requires a > 0
  {
    x - x % a
  }

  lemma DivModUnique(x: nat, a: nat, q: nat, r: nat)
    requires 0 <= r < a && x == a * q + r
    ensures x / a == q && x % a == r
  {
    var d: int := q - x / a;
    assert a * d == x % a - r;
    assert d >= 1 ==> a * d >= a;
    assert d <= -1 ==> a * d + a <= 0;
  }

  lemma MultipleAligned(q: nat, a: nat)
    requires a > 0
    ensures Aligned(a * q, a)
  {
    DivModUnique(a * q, a, q, 0);
  }

  lemma DownFacts(x: nat, a: nat)
    requires a > 0
    ensures Aligned(Down(x, a), a) && Down(x, a) <= x < Down(x, a) + a
  {
    assert Down(x, a) == a * (x / a);
    MultipleAligned(x / a, a);
  }

  lemma Quotient(x: nat, a: nat)
    requires a > 0 && Aligned(x, a)
    ensures x == a * (x / a) && x / a >= 0
  {
  }

  lemma MulDistributes(a: int, p: int, q: int)
    ensures a * (p + q) == a * p + a * q && a * (p - q) == a * p - a * q
  {
  }

  lemma MulAtLeast(a: int, p: int)
    requires a > 0 && a * p > 0
    ensures p >= 1 && a * p >= a
  {
  }

  /** Two different multiples are at least one step apart. */
  lemma AlignedGap(x: nat, y: nat, a: nat)
    requires a > 0 && Aligned(x, a) && Aligned(y, a) && x < y
    ensures x + a <= y
  {
    hide Aligned;
    Quotient(x, a);
    Quotient(y, a);
    var p, q := x / a, y / a;
    MulDistributes(a, q, p);
    MulAtLeast(a, q - p);
  }

  lemma AlignedSum(x: nat, y: nat, a: nat)
    requires a > 0 && Aligned(x, a) && Aligned(y, a)
    ensures Aligned(x + y, a)
  {
    hide Aligned;
    Quotient(x, a);
    Quotient(y, a);
    MulDistributes(a, x / a, y / a);
    MultipleAligned(x / a + y / a, a);
  }

  lemma Pow2Split(i: nat, j: nat)
    requires i <= j
    ensures Pow2(j) == Pow2(i) * Pow2(j - i)
    decreases j - i
  {
    if i < j {
      Pow2Split(i, j - 1);
      assert Pow2(j) == 2 * (Pow2(i) * Pow2(j - 1 - i)) == Pow2(i) * (2 * Pow2(j - 1 - i));
    }
  }

  /** A multiple of a larger power of two is a multiple of a smaller one. */
  lemma AlignedDown(x: nat, i: nat, j: nat)
    requires i <= j && Aligned(x, Pow2(j))
    ensures Aligned(x, Pow2(i))
  {
    hide Aligned, Pow2;
    Pow2Split(i, j);
    Quotient(x, Pow2(j));
    var q, b, c := x / Pow2(j), Pow2(i), Pow2(j - i);
    assert (b * c) * q == b * (c * q);
    MultipleAligned(c * q, b);
  }

  lemma PageIsPow2()
    ensures Pow2(PAGE_SHIFT) == PAGE_SIZE
  {
    assert Pow2(4) == 16;
    Pow2Split(4, 8);
    Pow2Split(4, 12);
  }

  /** align_address_and_available_size: the first aligned address, and the bytes left behind it. */
  function AlignAvailable(address: nat, size: nat, order: nat): (nat, nat) {
    var a := Pow2(order);
    if address == 0 then (0, size)
    else
      var up := Down(address - 1, a) + a;
      (up, if size >= up - address then size - (up - address) else 0)
  }

  /** align_address_and_size: the aligned block around a block. */
  function AlignBlock(address: nat, size: nat, order: nat): (nat, nat)
    requires size > 0
  {
    var a := Pow2(order);
    var x := Down(address, a);
    (x, Down(size + (address - x) - 1, a) + a)
  }

  /** The aligned block covers the block, and lies in every aligned block that does. */
  lemma AlignBlockLeast(address: nat, size: nat, order: nat)
    requires size > 0
    ensures var (x, n) := AlignBlock(address, size, order);
      && Aligned(x, Pow2(order)) && Aligned(x + n, Pow2(order)) && n > 0
      && x <= address && address + size <= x + n
      && forall u: nat, v: nat ::
        Aligned(u, Pow2(order)) && Aligned(v, Pow2(order)) && u <= address && address + size <= v ==>
           u <= x && x + n <= v
  {
    hide Aligned, Down, Pow2;
    var a := Pow2(order);
    var (x, n) := AlignBlock(address, size, order);
    DownFacts(address, a);
    var d := Down(size + (address - x) - 1, a);
    DownFacts(size + (address - x) - 1, a);
    MultipleAligned(1, a);
    AlignedSum(x, d, a);
    AlignedSum(x + d, a, a);
    forall u: nat, v: nat | Aligned(u, a) && Aligned(v, a) && u <= address && address + size <= v
      ensures u <= x && x + n <= v
    {
      if x < u { AlignedGap(x, u, a); }
      AlignedGap(x + d, v, a);
    }
  }

  lemma AlignBlockTrivial(address: nat, size: nat)
    requires size > 0
    ensures AlignBlock(address, size, 0) == (address, size)
  {
  }

  /** The range holds `size` bytes at some address aligned to the order. */
  ghost predicate CanHold(r: Range, size: nat, order: nat) {
    exists x: nat :: r.start <= x && Aligned(x, Pow2(order)) && EndAddress(x, size) <= r.end
  }

  /** The computed address is the least aligned address of the range. */
  lemma AlignAvailableLeast(address: nat, size: nat, order: nat)
    ensures var p := AlignAvailable(address, size, order);
      && p.0 >= address && Aligned(p.0, Pow2(order))
      && (forall x: nat :: x >= address && Aligned(x, Pow2(order)) ==> x >= p.0)
  {
    hide Aligned, Down, Pow2;
    var a := Pow2(order);
    var p := AlignAvailable(address, size, order).0;
    if address == 0 {
      MultipleAligned(0, a);
    } else {
      var d := Down(address - 1, a);
      DownFacts(address - 1, a);
      MultipleAligned(1, a);
      AlignedSum(d, a, a);
      forall x: nat | x >= address && Aligned(x, a) ensures x >= p {
        AlignedGap(d, x, a);
      }
    }
  }

  /** The test made by `alloc` accepts an entry exactly when it can hold an aligned block. */
  lemma FitsIffCanHold(r: Range, size: nat, order: nat)
    requires 0 <= r.start <= r.end && size > 0
    ensures CanHold(r, size, order) <==> AlignAvailable(r.start, r.Size(), order).1 >= size
    ensures CanHold(r, size, order) ==>
      var x := AlignAvailable(r.start, r.Size(), order).0;
      r.start <= x && Aligned(x, Pow2(order)) && EndAddress(x, size) <= r.end
  {
    hide Aligned, Down, Pow2;
    AlignAvailableLeast(r.start, r.Size(), order);
  }

  /** Every range is made of whole pages. */
  ghost predicate PageMultiple(rs: seq<Range>) {
    forall i :: 0 <= i < |rs| ==> WholePages(rs[i].start, rs[i].end)
  }

  predicate WholePages(s: int, e: int) {
    0 <= s < e && s % PAGE_SIZE == 0 && (e + 1) % PAGE_SIZE == 0
  }

  lemma CarvePageMultiple(rs: seq<Range>, i: nat, s: int, e: int)
    requires PageMultiple(rs) && i < |rs| && rs[i].Contains(s, e) && WholePages(s, e)
    ensures PageMultiple(Carve(rs, i, s, e)) && CleanCut(rs[i], s, e)
  {
  }

  lemma MergePageMultiple(rs: seq<Range>, i: nat, s: int, e: int)
    requires PageMultiple(rs) && i <= |rs| && WholePages(s, e)
    ensures PageMultiple(Merge(rs, i, s, e))
  {
  }

  /** The address that `alloc` would use in a range. */
  function FirstAligned(r: Range, order: nat): nat
    requires 0 <= r.start <= r.end
  {
    AlignAvailable(r.start, r.Size(), order).0
  }

  ghost predicate NonNegative(rs: seq<Range>) {
    forall i :: 0 <= i < |rs| ==> 0 <= rs[i].start <= rs[i].end
  }

  /** Whichever entry is used, the cut leaves no single byte behind: what `set_range` asserts. */
  ghost predicate CleanFits(rs: seq<Range>, size: nat, order: nat) {
    && NonNegative(rs)
    && (forall i :: 0 <= i < |rs| && CanHold(rs[i], size, order) ==>
         var x := FirstAligned(rs[i], order); CleanCut(rs[i], x, EndAddress(x, size)))
  }

  /** Without an alignment, the start of the range is used. */
  lemma FirstAlignedAtStart(r: Range)
    requires 0 <= r.start <= r.end
    ensures FirstAligned(r, 0) == r.start
  {
    AlignAvailableLeast(r.start, r.Size(), 0);
  }

  /** In a range of whole pages the first aligned address is a page address,
      and it is the start of the range unless the alignment is coarser than a page. */
  lemma FirstAlignedPage(r: Range, order: nat)
    requires WholePages(r.start, r.end)
    ensures FirstAligned(r, order) % PAGE_SIZE == 0
    ensures order <= PAGE_SHIFT ==> FirstAligned(r, order) == r.start
  {
    hide Down, Pow2;
    PageIsPow2();
    AlignAvailableLeast(r.start, r.Size(), order);
    if order <= PAGE_SHIFT {
      AlignedDown(r.start, order, PAGE_SHIFT);
    } else {
      AlignedDown(FirstAligned(r, order), PAGE_SHIFT, order);
    }
  }

  /** With page-multiple regions and sizes the assert in `set_range` cannot fail. */
  lemma PagesFitCleanly(rs: seq<Range>, size: nat, order: nat)
    requires PageMultiple(rs) && size % PAGE_SIZE == 0
    ensures CleanFits(rs, size, order)
  {
    hide Pow2, AlignAvailable;
    assert forall i :: 0 <= i < |rs| ==> WholePages(rs[i].start, rs[i].end);
    forall i | 0 <= i < |rs| && CanHold(rs[i], size, order)
      ensures var x := FirstAligned(rs[i], order); CleanCut(rs[i], x, EndAddress(x, size))
    {
      FirstAlignedPage(rs[i], order);
    }
  }
}
