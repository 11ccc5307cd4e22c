/** What the bulk path does to the paths of pages: which stay, what can stand in the way, and which ranges it leaves
    open for an unmap. */
module AreaPaths {
  import opened Radix
  import opened PageTable
  import opened Paging
  import opened Area

  // ---------------------------------------------------------------- the pages elsewhere

  /** The paths of the pages before `lo` and from `hi` on are as before. */
  ghost predicate Elsewhere(t: Tables, t': Tables, a: nat, base: nat, n: nat, lo: nat, hi: nat) {
    forall vp: nat :: Covers(base, n, vp) && (vp < lo || hi <= vp) ==> SamePath(t, t', a, n, vp)
  }

  lemma ElsewhereRefl(s: State, a: nat, base: nat, n: nat, lo: nat)
    requires SoundState(s) && a in s.t && s.place[a].level == n && s.place[a].base == base
    ensures Elsewhere(s.t, s.t, a, base, n, lo, lo)
  {
    hide SamePath, Index, Based, Child, Span;
    forall vp: nat | Covers(base, n, vp) ensures SamePath(s.t, s.t, a, n, vp) { PathKept(s.t, s.t, s.place, a, vp); }
  }

  lemma ElsewhereTrans(t: Tables, u: Tables, w: Tables, a: nat, base: nat, n: nat, lo: nat, mid: nat, hi: nat)
    requires Elsewhere(t, u, a, base, n, lo, mid) && Elsewhere(u, w, a, base, n, mid, hi) && lo <= mid <= hi
    ensures Elsewhere(t, w, a, base, n, lo, hi)
  {
    hide SamePath, Covers;
    forall vp: nat | Covers(base, n, vp) && (vp < lo || hi <= vp) ensures SamePath(t, w, a, n, vp) {
      SamePathTrans(t, u, w, a, n, vp);
    }
  }

  /** Writing a slot of `a` leaves the other slots alone. */
  lemma PutElsewhere(s: State, a: nat, n: nat, base: nat, i: nat, x: Slot)
    requires SoundState(s) && a in s.t && s.place[a].level == n && s.place[a].base == base && i < ENTRIES
    ensures Elsewhere(s.t, Put(s.t, a, i, x), a, base, n, Child(base, n, i), Child(base, n, i + 1))
  {
    hide Index, Child, Span, SamePath;
    var t' := Put(s.t, a, i, x);
    TableFacts(s.t, s.place, a);
    forall vp: nat | Covers(base, n, vp) && (vp < Child(base, n, i) || Child(base, n, i + 1) <= vp)
      ensures SamePath(s.t, t', a, n, vp)
    {
      OtherSlot(base, n, i, vp);
      PathKept(s.t, t', s.place, a, vp);
    }
  }

  /** A change inside the table below slot `i` leaves the other slots alone. */
  lemma LiftedElsewhere(s: State, s': State, a: nat, n: nat, base: nat, i: nat)
    requires SoundState(s) && SoundState(s') && a in s.t && s.place[a].level == n > 0 && s.place[a].base == base &&
      i < ENTRIES
    requires AreaFrame(s, s', n - 1, Child(base, n, i), Child(base, n, i) + Span(n))
    ensures Elsewhere(s.t, s'.t, a, base, n, Child(base, n, i), Child(base, n, i + 1))
  {
    hide Index, Child, Span, SamePath, Based;
    ChildStep(base, n, i);
    forall vp: nat | Covers(base, n, vp) && (vp < Child(base, n, i) || Child(base, n, i + 1) <= vp)
      ensures SamePath(s.t, s'.t, a, n, vp)
    {
      PathKept(s.t, s'.t, s.place, a, vp);
    }
  }

  /** Some page of the job has a block descriptor on its path or, for an unmap, an invalid one. */
  ghost predicate InTheWay(t: Tables, a: nat, base: nat, n: nat, missing: bool, j: Job) {
    exists vp: nat :: j.v <= vp < j.v + j.size && Covers(base, n, vp) && Blocked(t, a, n, vp, missing)
  }

  lemma InTheWayBefore(t: Tables, u: Tables, a: nat, base: nat, n: nat, f: Fill, j: Job, rest: Job, lo: nat, hi: nat)
    requires InTheWay(u, a, base, n, f.unmap, rest) && Elsewhere(t, u, a, base, n, lo, hi) && Moved(j, rest) &&
      hi <= rest.v
    ensures InTheWay(t, a, base, n, f.unmap, j)
  {
    hide Blocked, Covers, SamePath;
    var vp: nat :| rest.v <= vp < rest.v + rest.size && Covers(base, n, vp) && Blocked(u, a, n, vp, f.unmap);
    SamePathBlocked(t, u, a, n, vp, f.unmap);
    assert Blocked(t, a, n, vp, f.unmap);
  }

  lemma InTheWayBelow(s: State, a: nat, n: nat, base: nat, i: nat, c: nat, f: Fill, j: Job)
    requires SoundState(s) && a in s.t && s.place[a].level == n > 0 && s.place[a].base == base
    requires i < ENTRIES && s.t[a][i] == Table(c) && InTheWay(s.t, c, Child(base, n, i), n - 1, f.unmap, j)
    ensures InTheWay(s.t, a, base, n, f.unmap, j)
  {
    hide Index, Child, Based, Shaped, Span;
    var vp: nat :| j.v <= vp < j.v + j.size && Covers(Child(base, n, i), n - 1, vp) &&
      Blocked(s.t, c, n - 1, vp, f.unmap);
    TableFacts(s.t, s.place, a);
    ChildCovers(base, n, i, vp);
    SlotUnique(base, n, vp, i);
    assert Blocked(s.t, a, n, vp, f.unmap);
  }

  lemma InTheWayHere(s: State, a: nat, n: nat, base: nat, i: nat, f: Fill, j: Job)
    requires SoundState(s) && a in s.t && s.place[a].level == n > 0 && s.place[a].base == base && j.size > 0
    requires i < ENTRIES && Child(base, n, i) <= j.v < Child(base, n, i + 1)
    requires s.t[a][i].Leaf? || (s.t[a][i].Invalid? && f.unmap)
    ensures InTheWay(s.t, a, base, n, f.unmap, j)
  {
    hide Index, Child, Based, Shaped, Span;
    TableFacts(s.t, s.place, a);
    SlotUnique(base, n, j.v, i);
    assert Blocked(s.t, a, n, j.v, f.unmap);
  }

  // ---------------------------------------------------------------- ranges that can be unmapped

  /** The path of `vp` ends at a slot that `lo..hi` covers only in part, or whose level holds no block. */
  ghost predicate Stops(t: Tables, a: nat, n: nat, base: nat, vp: nat, lo: nat, hi: nat)
    decreases n
  {
    && a in t && |t[a]| == ENTRIES && n > 0
    && if t[a][Index(vp, n)].Table?
      then Stops(t, t[a][Index(vp, n)].addr, n - 1, Child(base, n, Index(vp, n)), vp, lo, hi)
       else !(n <= BLOCK_LEVEL && lo <= Child(base, n, Index(vp, n)) && Child(base, n, Index(vp, n) + 1) <= hi)
  }

  /** No page among the first `k` of the job stops. */
  ghost predicate Opened(t: Tables, a: nat, base: nat, n: nat, j: Job, k: nat) {
    forall vp: nat :: Covers(base, n, vp) && j.v <= vp < j.v + k ==> !Stops(t, a, n, base, vp, j.v, j.v + j.size)
  }

  lemma {:induction false} SamePathStops(t: Tables, t': Tables, a: nat, n: nat, base: nat, vp: nat, lo: nat, hi: nat)
    requires SamePath(t, t', a, n, vp)
    ensures Stops(t', a, n, base, vp, lo, hi) == Stops(t, a, n, base, vp, lo, hi)
    decreases n
  {
    hide Index, Child;
    if n > 0 && t[a][Index(vp, n)].Table? {
      SamePathStops(t, t', t[a][Index(vp, n)].addr, n - 1, Child(base, n, Index(vp, n)), vp, lo, hi);
    }
  }

  /** From the boundary of a slot on, any two starts at or before it count alike. */
  lemma {:induction false} StopsFrom(t: Tables, a: nat, n: nat, base: nat, vp: nat, lo: nat, lo': nat, hi: nat, k: nat)
    requires Based(base, n) && Covers(base, n, vp) && Child(base, n, k) <= vp && lo <= Child(base, n, k) &&
      lo' <= Child(base, n, k)
    ensures Stops(t, a, n, base, vp, lo, hi) == Stops(t, a, n, base, vp, lo', hi)
    decreases n
  {
    hide Index, Child, Based, Covers, Span;
    SlotOfPage(base, n, vp);
    var i := Index(vp, n);
    SlotFrom(base, n, vp, k);
    ChildMono(base, n, k, i);
    if n > 0 && a in t && |t[a]| == ENTRIES && t[a][i].Table? {
      ChildBased(base, n, i);
      SlotCovers(base, n, vp);
      ChildStep(Child(base, n, i), n - 1, 0);
      StopsFrom(t, t[a][i].addr, n - 1, Child(base, n, i), vp, lo, lo', hi, 0);
    }
  }

  /** A finished step and the next one, from the boundary between them on. */
  lemma OpenedThen(t: Tables, u: Tables, a: nat, base: nat, n: nat, j: Job, rest: Job, rest': Job, k: nat, hi: nat)
    requires Based(base, n) && Moved(j, rest) && Moved(rest, rest') && rest.v == Child(base, n, k)
    requires Opened(t, a, base, n, j, rest.v - j.v) && Opened(u, a, base, n, rest, rest'.v - rest.v)
    requires Elsewhere(t, u, a, base, n, Child(base, n, k), hi)
    ensures Opened(u, a, base, n, j, rest'.v - j.v)
  {
    hide Stops, SamePath, Covers, Based, Child;
    forall vp: nat | Covers(base, n, vp) && j.v <= vp < rest'.v ensures !Stops(u, a, n, base, vp, j.v, j.v + j.size) {
      if vp < rest.v {
        SamePathStops(t, u, a, n, base, vp, j.v, j.v + j.size);
      } else {
        StopsFrom(u, a, n, base, vp, rest.v, j.v, j.v + j.size, k);
      }
    }
  }

  /** Blocks that lie wholly in the range do not stop anything. */
  lemma BlocksOpened(t: Tables, a: nat, base: nat, n: nat, j: Job, k: nat, rest: Job)
    requires Based(base, n) && 0 < n <= BLOCK_LEVEL && a in t && |t[a]| == ENTRIES && Moved(j, rest)
    requires k <= ENTRIES && j.v == Child(base, n, k) && forall i :: k <= i < ENTRIES && Child(base, n, i) < rest.v ==>
      t[a][i].Leaf? && Child(base, n, i + 1) <= rest.v
    ensures Opened(t, a, base, n, j, rest.v - j.v)
  {
    hide Index, Child, Based, Covers, Span;
    forall vp: nat | Covers(base, n, vp) && j.v <= vp < rest.v ensures !Stops(t, a, n, base, vp, j.v, j.v + j.size) {
      SlotOfPage(base, n, vp);
      SlotFrom(base, n, vp, k);
      ChildMono(base, n, k, Index(vp, n));
    }
  }

  /** What holds below slot `i` holds seen from above. */
  lemma OpenedBelow(s: State, a: nat, n: nat, base: nat, i: nat, c: nat, j: Job, rest: Job)
    requires SoundState(s) && a in s.t && s.place[a].level == n > 0 && s.place[a].base == base
    requires i < ENTRIES && s.t[a][i] == Table(c) && Moved(j, rest) && Child(base, n, i) <= j.v &&
      rest.v <= Child(base, n, i + 1)
    requires Opened(s.t, c, Child(base, n, i), n - 1, j, rest.v - j.v)
    ensures Opened(s.t, a, base, n, j, rest.v - j.v)
  {
    hide Index, Child, Based, Shaped, Span;
    TableFacts(s.t, s.place, a);
    ChildStep(base, n, i);
    forall vp: nat | Covers(base, n, vp) && j.v <= vp < rest.v ensures !Stops(s.t, a, n, base, vp, j.v, j.v + j.size) {
      SlotUnique(base, n, vp, i);
      assert Covers(Child(base, n, i), n - 1, vp);
    }
  }

  /** Some page of the job stops. */
  ghost predicate StopsIn(t: Tables, a: nat, base: nat, n: nat, j: Job) {
    exists vp: nat :: j.v <= vp < j.v + j.size && Covers(base, n, vp) && Stops(t, a, n, base, vp, j.v, j.v + j.size)
  }

  /** Virtual and physical cursor agree modulo every block that fits. */
  ghost predicate Congruent(j: Job, n: nat) {
    forall m: nat :: m <= n && m <= BLOCK_LEVEL && Span(m) <= j.size ==> j.v % Span(m) == j.p % Span(m)
  }

  lemma CongruentDown(j: Job, n: nat)
    requires n > 0 && Congruent(j, n)
    ensures Congruent(j, n - 1)
  {
    hide Span;
  }

  lemma ModAddOf(q: nat, r: nat, k: nat, s: nat)
    requires s > 0
    ensures (q * s + r + k) % s == (r + k) % s
  {
    var c, t := Split(r + k, s);
    ModOf(r + k, s, c, t);
    assert (q + c) * s == q * s + c * s;
    ModOf(q * s + r + k, s, q + c, t);
  }

  lemma ModAdd(a: nat, b: nat, k: nat, s: nat)
    requires s > 0 && a % s == b % s
    ensures (a + k) % s == (b + k) % s
  {
    ModAddOf(a / s, a % s, k, s);
    ModAddOf(b / s, b % s, k, s);
  }

  lemma CongruentLater(j: Job, rest: Job, n: nat)
    requires Congruent(j, n) && Moved(j, rest)
    ensures Congruent(rest, n)
  {
    hide Span;
    var k := rest.v - j.v;
    forall m: nat | m <= n && m <= BLOCK_LEVEL && Span(m) <= rest.size ensures rest.v % Span(m) == rest.p % Span(m) {
      assert j.v % Span(m) == j.p % Span(m);
      ModAdd(j.v, j.p, k, Span(m));
    }
  }

  /** Congruent cursors make the start aligned wherever a block could be written. */
  lemma CongruentNice(j: Job, n: nat)
    requires Congruent(j, n)
    ensures Nice(j, n)
  {
    hide Span;
  }

  /** An unmap starts at physical address 0, where the two conditions are one. */
  lemma UnmapCongruent(j: Job, n: nat)
    requires j.p == 0 && Nice(j, n)
    ensures Congruent(j, n)
  {
    forall m: nat | m <= n && m <= BLOCK_LEVEL && Span(m) <= j.size ensures j.v % Span(m) == j.p % Span(m) {
      if m > 0 { assert Blocky(j, m); }
    }
  }

  /** Where a congruent job descends although the slot holds no table, the range covers the slot only in part. */
  lemma StopsHere(s: State, a: nat, n: nat, base: nat, i: nat, j: Job)
    requires SoundState(s) && a in s.t && s.place[a].level == n > 0 && s.place[a].base == base && j.size > 0
    requires i < ENTRIES && Child(base, n, i) <= j.v < Child(base, n, i + 1) && !s.t[a][i].Table? && Congruent(j, n) &&
      !Blocky(j, n)
    ensures StopsIn(s.t, a, base, n, j)
  {
    hide Index, Child, Based, Shaped, Span;
    TableFacts(s.t, s.place, a);
    SlotUnique(base, n, j.v, i);
    ChildAligned(base, n, i);
    ChildStep(base, n, i);
    assert Stops(s.t, a, n, base, j.v, j.v, j.v + j.size);
  }

  lemma StopsBelow(s: State, a: nat, n: nat, base: nat, i: nat, c: nat, j: Job)
    requires SoundState(s) && a in s.t && s.place[a].level == n > 0 && s.place[a].base == base
    requires i < ENTRIES && s.t[a][i] == Table(c) && StopsIn(s.t, c, Child(base, n, i), n - 1, j)
    ensures StopsIn(s.t, a, base, n, j)
  {
    hide Index, Child, Based, Shaped, Span;
    var vp: nat :| j.v <= vp < j.v + j.size && Covers(Child(base, n, i), n - 1, vp) &&
      Stops(s.t, c, n - 1, Child(base, n, i), vp, j.v, j.v + j.size);
    TableFacts(s.t, s.place, a);
    ChildCovers(base, n, i, vp);
    SlotUnique(base, n, vp, i);
    assert Stops(s.t, a, n, base, vp, j.v, j.v + j.size);
  }

  lemma StopsBefore(t: Tables, u: Tables, a: nat, base: nat, n: nat, j: Job, rest: Job, lo: nat, k: nat)
    requires Based(base, n) && StopsIn(u, a, base, n, rest) && Moved(j, rest) && rest.v == Child(base, n, k)
    requires Elsewhere(t, u, a, base, n, lo, Child(base, n, k))
    ensures StopsIn(t, a, base, n, j)
  {
    hide Stops, SamePath, Covers, Based, Child;
    var vp: nat :| rest.v <= vp < rest.v + rest.size && Covers(base, n, vp) &&
      Stops(u, a, n, base, vp, rest.v, rest.v + rest.size);
    StopsFrom(u, a, n, base, vp, rest.v, j.v, j.v + j.size, k);
    SamePathStops(t, u, a, n, base, vp, j.v, j.v + j.size);
    assert Stops(t, a, n, base, vp, j.v, j.v + j.size);
  }

  /** An error of a later round is an error of the whole. */
  lemma LaterError(t: Tables, u: Tables, a: nat, base: nat, n: nat, f: Fill, j: Job, i0: nat, index: nat, rest: Job)
    requires Based(base, n) && i0 <= index && rest.size > 0 &&
      Elsewhere(t, u, a, base, n, Child(base, n, i0), Child(base, n, index))
    requires index == i0 ==> rest == j && u == t
    requires index > i0 ==> Stepped(t, u, a, base, n, f, j, Child(base, n, i0), Child(base, n, index), Nice(j, n), rest)
    requires InTheWay(u, a, base, n, f.unmap, rest) && (Congruent(rest, n) ==> StopsIn(u, a, base, n, rest))
    ensures InTheWay(t, a, base, n, f.unmap, j) && (Congruent(j, n) ==> StopsIn(t, a, base, n, j))
  {
    hide Nice, Child, Below, Filled, Astray, Based, InTheWay, StopsIn, Elsewhere, Congruent, Span;
    if index > i0 {
      InTheWayBefore(t, u, a, base, n, f, j, rest, Child(base, n, i0), Child(base, n, index));
      if Congruent(j, n) {
        CongruentNice(j, n);
        CongruentLater(j, rest, n);
        StopsBefore(t, u, a, base, n, j, rest, Child(base, n, i0), index);
      }
    }
  }

  /** And a later round keeps what the earlier ones opened. */
  lemma LaterOpen(t: Tables, u: Tables, w: Tables, a: nat, base: nat, n: nat, f: Fill, j: Job, i0: nat, index: nat,
                  next: nat, rest: Job, rest': Job)
    requires Based(base, n) && rest.size > 0 && Nice(j, n)
    requires Stepped(t, u, a, base, n, f, j, Child(base, n, i0), Child(base, n, index), Nice(j, n), rest)
    requires Opened(u, a, base, n, j, rest.v - j.v)
    requires Moved(rest, rest') && (Nice(rest, n) ==> Opened(w, a, base, n, rest, rest'.v - rest.v))
    requires Elsewhere(u, w, a, base, n, Child(base, n, index), Child(base, n, next))
    ensures Opened(w, a, base, n, j, rest'.v - j.v)
  {
    hide Nice, Child, Below, Filled, Astray, Based, Opened, Elsewhere, Span;
    BoundaryNice(base, n, index, rest);
    OpenedThen(u, w, a, base, n, j, rest, rest', index, Child(base, n, next));
  }

  lemma OpenedNone(t: Tables, a: nat, base: nat, n: nat, j: Job, k: nat)
    requires n == 0 || k == 0
    ensures Opened(t, a, base, n, j, k)
  {
  }

  /** A run of blocks from an aligned start. */
  lemma RunOpened(t: Tables, a: nat, base: nat, n: nat, j: Job, i0: nat, index: nat, rest: Job)
    requires Based(base, n) && Blocky(j, n) && i0 < index <= ENTRIES &&
      Child(base, n, i0) <= j.v < Child(base, n, i0 + 1)
    requires a in t && |t[a]| == ENTRIES && Moved(j, rest) && rest.v - j.v == Child(base, n, index) - Child(base, n, i0)
    requires forall i :: i0 <= i < index ==> t[a][i].Leaf?
    ensures Nice(j, n) ==> Opened(t, a, base, n, j, rest.v - j.v)
  {
    hide Nice, Child, Based, Opened, Span;
    BlockyNice(base, n, i0, j);
    if Nice(j, n) {
      forall i | i0 <= i < ENTRIES && Child(base, n, i) < rest.v ensures i < index && Child(base, n, i + 1) <= rest.v {
        if i >= index { ChildMono(base, n, index, i); } else { ChildMono(base, n, i + 1, index); }
      }
      BlocksOpened(t, a, base, n, j, i0, rest);
    }
  }

  // ---------------------------------------------------------------- errors and new tables

  /** What an error means, and that an unmap takes and makes no table. */
  ghost predicate AreaErrors(s: State, s': State, a: nat, base: nat, n: nat, f: Fill, j: Job, r: Result<Job>) {
    && (r.Err? ==> r.error.EntryIsNotFound? || (r.error.MemoryCacheRanOut? && !f.unmap))
    && (r == Err(EntryIsNotFound) ==>
      InTheWay(s.t, a, base, n, f.unmap, j) && (Congruent(j, n) ==> StopsIn(s.t, a, base, n, j)))
    && (r == Err(MemoryCacheRanOut) ==> |s'.frames| <= n)
    && (f.unmap ==> s'.frames == s.frames && s'.t.Keys == s.t.Keys && s'.place == s.place)
  }

  lemma BelowOpened(s: State, s': State, a: nat, n: nat, base: nat, i: nat, c: nat, f: Fill, j: Job, rest: Job)
    requires SoundState(s) && SoundState(s') && a in s.t && s.place[a].level == n > 0 && s.place[a].base == base
    requires i < ENTRIES && s.t[a][i] == Table(c) && Child(base, n, i) <= j.v
    requires AreaFrame(s, s', n - 1, Child(base, n, i), Child(base, n, i) + Span(n))
    requires Stepped(s.t, s'.t, a, base, n, f, j, Child(base, n, i), Child(base, n, i + 1), Nice(j, n - 1), rest)
    requires Nice(j, n - 1) && !f.unmap ==> rest.v >= j.v && Opened(s'.t, c, Child(base, n, i), n - 1, j, rest.v - j.v)
    ensures Nice(j, n - 1) && !f.unmap ==> rest.v >= j.v && Opened(s'.t, a, base, n, j, rest.v - j.v)
  {
    hide Nice, Child, Below, Filled, Astray, Based, Opened, Span, Shaped, AreaFrame;
    TableFacts(s.t, s.place, a);
    KeptInArea(s, s', n - 1, Child(base, n, i), Child(base, n, i) + Span(n), a);
    if Nice(j, n - 1) && !f.unmap { OpenedBelow(s', a, n, base, i, c, j, rest); }
  }

  /** Hanging `c` does not change the paths below it. */
  lemma HungOpened(s: State, u: State, a: nat, n: nat, base: nat, i: nat, c: nat, f: Fill, j: Job, rest: Job)
    requires SoundState(u) && a in u.t && |u.t[a]| == ENTRIES && c in u.t && i < ENTRIES && SoundState(Hung(u, a, i, c))
    requires u.place[a].level == n > 0 && u.place[a].base == base
    requires u.place[c].level == n - 1 && u.place[c].base == Child(base, n, i) && Covers(Child(base, n, i), n - 1, j.v)
    requires Stepped(s.t, Hung(u, a, i, c).t, a, base, n, f, j, Child(base, n, i), Child(base, n, i + 1), true, rest)
    requires rest.v >= j.v && Opened(u.t, c, Child(base, n, i), n - 1, j, rest.v - j.v)
    ensures Opened(Hung(u, a, i, c).t, a, base, n, j, rest.v - j.v)
  {
    hide Index, Child, Based, Span, Stops, SamePath, Below, Filled, Astray;
    var t', cb := Hung(u, a, i, c).t, Child(base, n, i);
    var m, hi := n - 1, j.v + j.size;
    forall vp: nat | Covers(cb, m, vp) && j.v <= vp < rest.v ensures !Stops(t', c, m, cb, vp, j.v, hi) {
      PathKept(u.t, t', u.place, c, vp);
      SamePathStops(u.t, t', c, m, cb, vp, j.v, hi);
    }
    OpenedBelow(Hung(u, a, i, c), a, n, base, i, c, j, rest);
  }

  lemma NothingInTheWay(t: Tables, c: nat, cb: nat, n: nat, f: Fill, j: Job)
    requires c in t && t[c] == EMPTY && !f.unmap
    ensures !InTheWay(t, c, cb, n, f.unmap, j)
  {
    hide EMPTY, Blocked;
    forall vp: nat ensures !Blocked(t, c, n, vp, f.unmap) { EmptyNotBlocked(t, c, n, vp); }
  }

  lemma MadeElsewhere(s: State, s1: State, u: State, a: nat, n: nat, base: nat, i: nat, c: nat)
    requires SoundState(s) && SoundState(u) && a in s.t && s.place[a].level == n > 0 && s.place[a].base == base &&
      i < ENTRIES
    requires c in s.frames && s1 == Made(s, c, Place(n - 1, Child(base, n, i), a), EMPTY)
    requires AreaFrame(s1, u, n - 1, Child(base, n, i), Child(base, n, i) + Span(n)) && a in u.t && |u.t[a]| == ENTRIES
    ensures Elsewhere(s.t, Hung(u, a, i, c).t, a, base, n, Child(base, n, i), Child(base, n, i + 1))
  {
    hide Index, Child, Span, SamePath, EMPTY;
    ChildStep(base, n, i);
    var t' := Hung(u, a, i, c).t;
    forall vp: nat | Covers(base, n, vp) && (vp < Child(base, n, i) || Child(base, n, i + 1) <= vp)
      ensures SamePath(s.t, t', a, n, vp)
    {
      OtherSlot(base, n, i, vp);
      forall b | b in s.t && At(s.place, b, vp) && s.place[b].level <= n
        ensures b in t' && |t'[b]| == ENTRIES &&
          t'[b][Index(vp, s.place[b].level)] == s.t[b][Index(vp, s.place[b].level)]
      {
        assert b in s1.t && s1.t[b] == s.t[b] && s1.place[b] == s.place[b];
      }
      PathKept(s.t, t', s.place, a, vp);
    }
  }

  /** Giving the new table back leaves the other slots alone. */
  lemma BackElsewhere(s: State, s1: State, u: State, a: nat, n: nat, base: nat, i: nat, c: nat)
    requires SoundState(s) && SoundState(u) && a in s.t && s.place[a].level == n > 0 && s.place[a].base == base &&
      i < ENTRIES
    requires c in s.frames && s1 == Made(s, c, Place(n - 1, Child(base, n, i), a), EMPTY)
    requires AreaFrame(s1, u, n - 1, Child(base, n, i), Child(base, n, i) + Span(n))
    ensures Elsewhere(s.t, u.t - {c}, a, base, n, Child(base, n, i), Child(base, n, i + 1))
  {
    hide Index, Child, Span, SamePath, EMPTY;
    ChildStep(base, n, i);
    var t' := u.t - {c};
    forall vp: nat | Covers(base, n, vp) && (vp < Child(base, n, i) || Child(base, n, i + 1) <= vp)
      ensures SamePath(s.t, t', a, n, vp)
    {
      forall b | b in s.t && At(s.place, b, vp) && s.place[b].level <= n
        ensures b in t' && |t'[b]| == ENTRIES &&
          t'[b][Index(vp, s.place[b].level)] == s.t[b][Index(vp, s.place[b].level)]
      {
        assert b in s1.t && s1.t[b] == s.t[b] && s1.place[b] == s.place[b];
      }
      PathKept(s.t, t', s.place, a, vp);
    }
  }
}
