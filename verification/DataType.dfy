/** Sizes, orders and the page constants of the memory manager
    (src/kernel/memory_manager/data_type.rs). */
module DataType {

  const PAGE_SHIFT: nat := 12
  const PAGE_SIZE: nat := 4096

  /** `1 << n`. */
  function Pow2(n: nat): (r: nat)
    ensures r > 0
  {
    if n == 0 then 1 else 2 * Pow2(n - 1)
  }

  /** `o` is the least order whose power of two reaches `size`, cut off at `max`. */
  predicate IsOrderOf(size: nat, max: nat, o: nat) {
    && o <= max
    && (o < max ==> size <= Pow2(o))
    && (forall p: nat :: p < o ==> Pow2(p) < size)
  }

  lemma OrderUnique(size: nat, max: nat, a: nat, b: nat)
    requires IsOrderOf(size, max, a) && IsOrderOf(size, max, b)
    ensures a == b
  {
    assert a < b ==> Pow2(a) < size;
    assert b < a ==> Pow2(b) < size;
  }

  /** The order as a value, for specifications. */
  function OrderFrom(size: nat, max: nat, o: nat): (r: nat)
    requires o <= max
    requires forall p: nat :: p < o ==> Pow2(p) < size
    ensures IsOrderOf(size, max, r)
    decreases max - o
  {
    if o == max || size <= Pow2(o) then o else OrderFrom(size, max, o + 1)
  }

  /** MOrder::from_offset: the counting loop. */
  method FromOffset(size: nat, max: nat) returns (order: nat)
    ensures IsOrderOf(size, max, order)
  {
    order := 0;
    while size > Pow2(order)
      invariant order <= max
      invariant forall p: nat :: p < order ==> Pow2(p) < size
      invariant order == max ==> max == 0
      decreases max - order + 1
    {
      order := order + 1;
      if order >= max {
        return max;
      }
    }
  }

  /** MPageOrder::from_offset on values: order of `size`, counted in pages, at most `maxPageOrder`. */
  function PageOrderOf(size: nat, maxPageOrder: nat): (r: nat)
    ensures r <= maxPageOrder
  {
    var o := OrderFrom(size, maxPageOrder + PAGE_SHIFT, 0);
    if o > PAGE_SHIFT then o - PAGE_SHIFT else 0
  }

  /** MPageOrder::from_offset, through the loop. */
  method PageOrderFromOffset(size: nat, maxPageOrder: nat) returns (r: nat)
    ensures r == PageOrderOf(size, maxPageOrder)
  {
    var o := FromOffset(size, maxPageOrder + PAGE_SHIFT);
    OrderUnique(size, maxPageOrder + PAGE_SHIFT, o, OrderFrom(size, maxPageOrder + PAGE_SHIFT, 0));
    r := if o > PAGE_SHIFT then o - PAGE_SHIFT else 0;
  }

  /** Larger sizes never get a smaller page order: a list of a lower order holds only smaller sizes. */
  lemma PageOrderMonotone(a: nat, b: nat, maxPageOrder: nat)
    requires a <= b
    ensures PageOrderOf(a, maxPageOrder) <= PageOrderOf(b, maxPageOrder)
  {
    var m := maxPageOrder + PAGE_SHIFT;
    var x, y := OrderFrom(a, m, 0), OrderFrom(b, m, 0);
    assert y < x ==> Pow2(y) < a;
  }

  /** MSize::to_end_address: the last byte of a range. */
  function EndAddress(start: int, size: int): int { start + (size - 1) }

  /** MSize::from_address: the size of an inclusive range. */
  function SizeOf(start: int, end: int): int { end - start + 1 }
}
