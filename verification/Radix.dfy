/** How a virtual page number is split over the levels of a 512-way table tree.
    Level 0 holds page descriptors; a slot of level `n` spans `512^n` pages. */
module Radix {
  const ENTRIES: nat := 512

  function Span(n: nat): (s: nat)
    ensures s > 0
  {
    if n == 0 then 1 else 512 * Span(n - 1)
  }

  /** `(virtual_address >> shift_level) & (NUM_OF_TABLE_ENTRIES - 1)`, on page numbers. */
  function Index(vp: nat, n: nat): (i: nat)
    ensures i < ENTRIES
  {
    (vp / Span(n)) % 512
  }

  /** First page of slot `i` of a level-`n` table whose first page is `base`. */
  function Child(base: nat, n: nat, i: nat): (c: nat)
  {
    base + i * Span(n)
  }

  /** `base` is a multiple of the span of a whole level-`n` table. */
  predicate Based(base: nat, n: nat) { base == (base / Span(n + 1)) * Span(n + 1) }

  /** The page belongs to the level-`n` table that starts at `base`. */
  predicate Covers(base: nat, n: nat, vp: nat) { base <= vp < base + Span(n + 1) }

  lemma MulMono(a: nat, b: nat, s: nat)
    requires a <= b
    ensures a * s <= b * s
  {
  }

  lemma DivOf(x: nat, s: nat, q: nat)
    requires s > 0 && q * s <= x < (q + 1) * s
    ensures x / s == q
  {
    var d: int := x / s - q;
    var r := x % s;
    assert x == (x / s) * s + r;
    assert d * s == (x / s) * s - q * s;
    assert d >= 1 ==> d * s >= s;
    assert d <= -1 ==> d * s <= -(s as int);
  }

  lemma MultipleBased(q: nat, n: nat)
    ensures Based(q * Span(n + 1), n)
  {
    var s := Span(n + 1);
    assert (q + 1) * s == q * s + s;
    DivOf(q * s, s, q);
  }

  /** The digit of weight `s`. */
  lemma Digit(s: nat, q: nat, k: nat, r: nat)
    requires s > 0 && k < 512 && r < s
    ensures (((q * 512 + k) * s + r) / s) % 512 == k
  {
    var d := q * 512 + k;
    assert (d + 1) * s == d * s + s;
    DivOf(d * s + r, s, d);
  }

  lemma Split(x: nat, s: nat) returns (k: nat, r: nat)
    requires s > 0
    ensures x == k * s + r && r < s
  {
    k, r := x / s, x % s;
  }

  lemma Regroup(q: nat, k: nat, s: nat)
    ensures q * (512 * s) + k * s == (q * 512 + k) * s
  {
    assert q * (512 * s) == (q * 512) * s;
    assert (q * 512 + k) * s == (q * 512) * s + k * s;
  }

  /** The slot that holds a page of the table. */
  lemma SlotOfPage(base: nat, n: nat, vp: nat)
    requires Based(base, n) && Covers(base, n, vp)
    ensures Child(base, n, Index(vp, n)) <= vp < Child(base, n, Index(vp, n) + 1)
  {
    var q, s := base / Span(n + 1), Span(n);
    var k, r := Split(vp - base, s);
    if k >= 512 { MulMono(512, k, s); }
    Regroup(q, k, s);
    Digit(s, q, k, r);
    assert (k + 1) * s == k * s + s;
  }

  /** No other slot holds it. */
  lemma SlotUnique(base: nat, n: nat, vp: nat, i: nat)
    requires Based(base, n) && i < ENTRIES && Child(base, n, i) <= vp < Child(base, n, i + 1)
    ensures Index(vp, n) == i && Covers(base, n, vp)
  {
    var s := Span(n);
    MulMono(i + 1, 512, s);
    SlotOfPage(base, n, vp);
    var k := Index(vp, n);
    if k < i { MulMono(k + 1, i, s); } else if i < k { MulMono(i + 1, k, s); }
  }

  /** The table under slot `i` is based. */
  lemma ChildBased(base: nat, n: nat, i: nat)
    requires n > 0 && Based(base, n)
    ensures Based(Child(base, n, i), n - 1)
  {
    var q, s := base / Span(n + 1), Span(n);
    Regroup(q, i, s);
    MultipleBased(q * 512 + i, n - 1);
  }

  lemma ChildStep(base: nat, n: nat, i: nat)
    ensures Child(base, n, i + 1) == Child(base, n, i) + Span(n)
    ensures Child(base, n, 0) == base && Child(base, n, 512) == base + Span(n + 1)
  {
    var s := Span(n);
    assert (i + 1) * s == i * s + s;
  }

  lemma ChildMono(base: nat, n: nat, i: nat, j: nat)
    requires i <= j
    ensures Child(base, n, i) <= Child(base, n, j)
  {
    MulMono(i, j, Span(n));
  }
}
