/** What an unmap of the bulk path (src/arch/aarch64/paging/mod.rs) takes away: a set of pages as large as the range it
    has worked off, which is the range itself only if the range is aligned. */
module AreaErased {
  import opened Collections
  import opened Radix
  import opened PageTable
  import opened Paging
  import opened Area

  function Pages(lo: nat, hi: nat): (s: set<nat>)
    ensures forall x: nat :: x in s <==> lo <= x < hi
    ensures lo <= hi ==> |s| == hi - lo
    decreases hi
  {
    if lo < hi then Pages(lo, hi - 1) + {hi - 1} else {}
  }

  /** The pages of `w`, all in `lo..hi`, lost their translation, and no other page. */
  ghost predicate Erased(t: Tables, t': Tables, a: nat, base: nat, n: nat, lo: nat, hi: nat, w: set<nat>) {
    && (forall vp :: vp in w ==> lo <= vp < hi && Covers(base, n, vp))
    && (forall vp: nat :: Covers(base, n, vp) ==> Walk(t', a, n, vp) == if vp in w then None else Walk(t, a, n, vp))
  }

  lemma ErasedNone(t: Tables, a: nat, base: nat, n: nat, lo: nat, hi: nat)
    ensures Erased(t, t, a, base, n, lo, hi, {})
  {
  }

  lemma ErasedWiden(t: Tables, t': Tables, a: nat, base: nat, n: nat, lo: nat, hi: nat, lo': nat, hi': nat, w: set<nat>)
    requires Erased(t, t', a, base, n, lo, hi, w) && lo' <= lo && hi <= hi'
    ensures Erased(t, t', a, base, n, lo', hi', w)
  {
    hide Walk, Covers;
  }

  lemma ErasedThen(t: Tables, u: Tables, t': Tables, a: nat, base: nat, n: nat, lo: nat, mid: nat, hi: nat, x: set<nat>,
                   y: set<nat>)
    requires Erased(t, u, a, base, n, lo, mid, x) && Erased(u, t', a, base, n, mid, hi, y) && lo <= mid <= hi
    ensures Erased(t, t', a, base, n, lo, hi, x + y) && |x + y| == |x| + |y|
  {
    hide Walk, Covers;
    assert x !! y;
  }

  /** A run of pages that was filled with nothing. */
  lemma FilledErased(t: Tables, t': Tables, a: nat, base: nat, n: nat, f: Fill, j: Job, k: nat)
    requires f.unmap && Filled(t, t', a, base, n, f, j, k) && base <= j.v && j.v + k <= base + Span(n + 1)
    ensures Erased(t, t', a, base, n, j.v, j.v + k, Pages(j.v, j.v + k)) && |Pages(j.v, j.v + k)| == k
  {
    hide Walk, Pages;
  }

  /** What was taken away below slot `i`, seen from the table above. */
  lemma ErasedUp(s: State, s': State, a: nat, n: nat, base: nat, i: nat, c: nat, w: set<nat>)
    requires SoundState(s) && SoundState(s') && a in s.t && s.place[a].level == n > 0 && s.place[a].base == base
    requires i < ENTRIES && s.t[a][i] == Table(c)
    requires AreaFrame(s, s', n - 1, Child(base, n, i), Child(base, n, i) + Span(n))
    requires Erased(s.t, s'.t, c, Child(base, n, i), n - 1, Child(base, n, i), Child(base, n, i) + Span(n), w)
    ensures Erased(s.t, s'.t, a, base, n, Child(base, n, i), Child(base, n, i + 1), w)
  {
    hide Index, Based, Child, Walk, Shaped;
    var cb := Child(base, n, i);
    ChildStep(base, n, i);
    TableFacts(s.t, s.place, a);
    KeptInArea(s, s', n - 1, cb, cb + Span(n), a);
    forall vp: nat | Covers(base, n, vp) ensures Walk(s'.t, a, n, vp) == if vp in w then None else Walk(s.t, a, n, vp) {
      if Covers(cb, n - 1, vp) {
        SlotWalk(s, a, n, base, i, c, vp);
        SlotWalk(s', a, n, base, i, c, vp);
      } else {
        AreaFrameWalk(s, s', n - 1, cb, cb + Span(n), a, vp);
      }
    }
    forall vp | vp in w ensures Covers(base, n, vp) { ChildCovers(base, n, i, vp); }
  }

  /** How many pages a call that unmaps took away; one that goes astray took away the page before the range. */
  ghost predicate Unmaps(t: Tables, t': Tables, a: nat, base: nat, n: nat, lo: nat, hi: nat, j: Job, nice: bool,
                         r: Result<Job>, w: set<nat>) {
    && Erased(t, t', a, base, n, lo, hi, w)
    && (r.Ok? ==> r.value.v == j.v + |w| && (!nice ==> j.v > 0 && j.v - 1 in w))
    && (r.Err? ==> |w| < j.size)
  }

  lemma UnmapsThen(t: Tables, u: Tables, t': Tables, a: nat, base: nat, n: nat, lo: nat, mid: nat, hi: nat, j: Job,
                   nice: bool, nice': bool,
                   rest: Job, r: Result<Job>, x: set<nat>, y: set<nat>)
    requires Unmaps(t, u, a, base, n, lo, mid, j, nice, Ok(rest), x) &&
      Unmaps(u, t', a, base, n, mid, hi, rest, nice', r, y)
    requires lo <= mid <= hi && Moved(j, rest)
    ensures Unmaps(t, t', a, base, n, lo, hi, j, nice, r, x + y)
  {
    hide Erased;
    ErasedThen(t, u, t', a, base, n, lo, mid, hi, x, y);
  }

  /** If the page before the range went, some page of the range stayed. */
  lemma SomeStays(j: Job, w: set<nat>)
    requires j.v > 0 && j.v - 1 in w && |w| <= j.size
    ensures exists vp: nat :: j.v <= vp < j.v + j.size && vp !in w
  {
    var range := Pages(j.v, j.v + j.size);
    if range <= w {
      assert range < w;
      SmallerSet(range, w);
    }
    var vp :| vp in range && vp !in w;
  }

  lemma FewerStays(j: Job, w: set<nat>)
    requires |w| < j.size
    ensures exists vp: nat :: j.v <= vp < j.v + j.size && vp !in w
  {
    var range := Pages(j.v, j.v + j.size);
    if range <= w { SubsetSize(range, w); }
    var vp :| vp in range && vp !in w;
  }

  lemma {:induction false} SubsetSize(x: set<nat>, y: set<nat>)
    requires x <= y
    ensures |x| <= |y|
    decreases x
  {
    if x != {} {
      var e :| e in x;
      SubsetSize(x - {e}, y - {e});
    }
  }

  lemma SmallerSet(x: set<nat>, y: set<nat>)
    requires x < y
    ensures |x| < |y|
  {
    var e :| e in y && e !in x;
    SubsetSize(x, y - {e});
  }
}
