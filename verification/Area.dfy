/** The bulk path of the page manager (src/arch/aarch64/paging/mod.rs) on values: what a call of `_associate_area`
    does to the translations of a table. */
module Area {
  import opened Collections
  import opened Radix
  import opened PageTable
  import opened Paging

  /** The moving cursors: physical page, virtual page and pages left. */
  datatype Job = Job(p: nat, v: nat, size: nat)

  /** What is written: a mapping with attributes, or nothing. */
  datatype Fill = Fill(attr: Attr, unmap: bool)

  function Advance(j: Job, k: nat): Job
    requires k <= j.size
  {
    Job(j.p + k, j.v + k, j.size - k)
  }

  function SlotFor(f: Fill, p: nat): Slot { if f.unmap then Invalid else Leaf(p, f.attr) }

  /** The translation that the job asks for. */
  function Target(f: Fill, j: Job, vp: nat): Option<Mapping>
    requires vp >= j.v
  {
    if f.unmap then None else Some(Mapping(j.p + (vp - j.v), f.attr))
  }

  /** Levels 1 and 2 may hold block descriptors (BLOCK_ENTRY_ENABLED_SHIFT_LEVEL). */
  const BLOCK_LEVEL: nat := 2

  /** The guard of the branch that writes block descriptors: it looks at the physical address only. */
  predicate Blocky(j: Job, n: nat) { 0 < n <= BLOCK_LEVEL && j.p % Span(n) == 0 && Span(n) <= j.size }

  /** Wherever that branch could be taken at the start, the virtual page is aligned too. */
  ghost predicate Nice(j: Job, n: nat) {
    forall m: nat :: m <= n && Blocky(j, m) ==> j.v % Span(m) == 0
  }

  lemma ModOf(x: nat, s: nat, q: nat, r: nat)
    requires s > 0 && x == q * s + r && r < s
    ensures x % s == r && x / s == q
  {
    assert (q + 1) * s == q * s + s;
    DivOf(x, s, q);
  }

  // ---------------------------------------------------------------- frames

  ghost predicate RangeIn(p: Place, lo: nat, hi: nat) {
    lo <= p.base && p.base + Span(p.level + 1) <= hi
  }

  /** Only tables up to level `n` that lie in `lo..hi` changed, none vanished, and new ones were free frames. */
  ghost predicate AreaFrame(s: State, s': State, n: nat, lo: nat, hi: nat) {
    && s'.t.Keys + s'.frames <= s.t.Keys + s.frames
    && forall b :: b in s.t && b in s.place ==>
      && b in s'.t && b in s'.place && s'.place[b] == s.place[b]
      && (s'.t[b] != s.t[b] ==> s.place[b].level <= n && RangeIn(s.place[b], lo, hi))
  }

  lemma AreaFrameTrans(s: State, u: State, v: State, n: nat, lo: nat, hi: nat)
    requires AreaFrame(s, u, n, lo, hi) && AreaFrame(u, v, n, lo, hi)
    ensures AreaFrame(s, v, n, lo, hi)
  {
    hide RangeIn;
  }

  lemma AreaFrameWiden(s: State, u: State, n: nat, lo: nat, hi: nat, n': nat, lo': nat, hi': nat)
    requires AreaFrame(s, u, n, lo, hi) && n <= n' && lo' <= lo && hi <= hi'
    ensures AreaFrame(s, u, n', lo', hi')
  {
  }

  /** Pages outside the frame translate as before. */
  lemma AreaFrameWalk(s: State, s': State, n: nat, lo: nat, hi: nat, a: nat, vp: nat)
    requires SoundState(s) && SoundState(s') && AreaFrame(s, s', n, lo, hi) && a in s.t && At(s.place, a, vp) &&
      !(lo <= vp < hi)
    ensures Walk(s'.t, a, s.place[a].level, vp) == Walk(s.t, a, s.place[a].level, vp)
  {
    hide Index, Based, Child, Span;
    WalkSame(s.t, s'.t, s.place, a, vp);
  }

  // ---------------------------------------------------------------- what a call achieves

  /** How many pages of the job lie in the level-`n` table at `base`. */
  function Reach(j: Job, base: nat, n: nat): (k: nat)
    requires Covers(base, n, j.v)
    ensures k <= j.size
  {
    if j.size <= base + Span(n + 1) - j.v then j.size else base + Span(n + 1) - j.v
  }

  /** The first `k` pages of the job now translate as asked, the table's other pages as before. */
  ghost predicate Filled(t: Tables, t': Tables, a: nat, base: nat, n: nat, f: Fill, j: Job, k: nat) {
    forall vp: nat :: Covers(base, n, vp) ==>
      Walk(t', a, n, vp) == if j.v <= vp < j.v + k then Target(f, j, vp) else Walk(t, a, n, vp)
  }

  lemma PageIndex(base: nat, vp: nat)
    requires Based(base, 0) && Covers(base, 0, vp)
    ensures Index(vp, 0) == vp - base && vp % Span(0) == 0
  {
    hide Index;
    SlotOfPage(base, 0, vp);
  }

  /** The slots of a level-0 table after `k` descriptors have been written from `i0` on. */
  ghost predicate Written(was: seq<Slot>, now: seq<Slot>, i0: nat, k: nat, f: Fill, p: nat) {
    && |was| == |now| == ENTRIES
    && forall i :: 0 <= i < ENTRIES ==> now[i] == if i0 <= i < i0 + k then SlotFor(f, p + (i - i0)) else was[i]
  }

  lemma WrittenFilled(t: Tables, t': Tables, a: nat, base: nat, f: Fill, j: Job, k: nat)
    requires a in t && a in t' && Based(base, 0) && Covers(base, 0, j.v)
    requires Written(t[a], t'[a], Index(j.v, 0), k, f, j.p)
    ensures Filled(t, t', a, base, 0, f, j, k)
  {
    hide Index, Based;
    PageIndex(base, j.v);
    forall vp: nat | Covers(base, 0, vp)
      ensures Walk(t', a, 0, vp) == if j.v <= vp < j.v + k then Target(f, j, vp) else Walk(t, a, 0, vp)
    {
      PageIndex(base, vp);
      assert t'[a][Index(vp, 0)] == if j.v <= vp < j.v + k then SlotFor(f, j.p + (vp - j.v)) else t[a][Index(vp, 0)];
    }
  }

  lemma FilledTrans(t: Tables, u: Tables, w: Tables, a: nat, base: nat, n: nat, f: Fill, j: Job, k: nat, k': nat)
    requires k + k' <= j.size && Filled(t, u, a, base, n, f, j, k) && Filled(u, w, a, base, n, f, Advance(j, k), k')
    ensures Filled(t, w, a, base, n, f, j, k + k')
  {
    hide Walk, Covers;
  }

  // ---------------------------------------------------------------- one block descriptor

  lemma MultipleBetween(s: nat, x: nat, m: nat)
    requires x * s <= m * s < (x + 1) * s
    ensures m == x
  {
    var d: int := m - x;
    assert d * s == m * s - x * s;
    assert d >= 1 ==> d * s >= s;
    assert d <= -1 ==> d * s <= -(s as int);
  }

  lemma ChildFactor(base: nat, n: nat) returns (q: nat)
    requires Based(base, n)
    ensures forall i: nat {:trigger Child(base, n, i)} :: Child(base, n, i) == (q * 512 + i) * Span(n)
  {
    q := base / Span(n + 1);
    forall i: nat ensures Child(base, n, i) == (q * 512 + i) * Span(n) {
      Regroup(q, i, Span(n));
    }
  }

  lemma Factor(v: nat, s: nat) returns (m: nat)
    requires s > 0 && v % s == 0
    ensures v == m * s
  {
    m := v / s;
  }

  /** A page that is a multiple of the slot's span and lies in the slot is its first page. */
  lemma AlignedSlot(base: nat, n: nat, i: nat, v: nat)
    requires Based(base, n) && v % Span(n) == 0 && Child(base, n, i) <= v < Child(base, n, i + 1)
    ensures v == Child(base, n, i)
  {
    hide Based, Child, Span;
    var q := ChildFactor(base, n);
    var m := Factor(v, Span(n));
    MultipleBetween(Span(n), q * 512 + i, m);
  }

  lemma BlockOffset(c: nat, s: nat, vp: nat)
    requires s > 0 && c % s == 0 && c <= vp < c + s
    ensures vp % s == vp - c
  {
    ModOf(vp, s, c / s, vp - c);
  }

  lemma BlockFilled(s: State, a: nat, n: nat, i: nat, f: Fill, j: Job)
    requires SoundState(s) && a in s.t && s.place[a].level == n > 0 && i < ENTRIES
    requires j.v == Child(s.place[a].base, n, i) && j.v % Span(n) == 0 && Span(n) <= j.size
    ensures var t' := Put(s.t, a, i, SlotFor(f, j.p));
      && SoundState(s.(t := t'))
      && AreaFrame(s, s.(t := t'), n, s.place[a].base, s.place[a].base + Span(n + 1))
      && Filled(s.t, t', a, s.place[a].base, n, f, j, Span(n))
  {
    hide Index, Based;
    var t', base := Put(s.t, a, i, SlotFor(f, j.p)), s.place[a].base;
    PutShaped(s.t, s.place, a, i, SlotFor(f, j.p));
    ChildStep(base, n, i);
    forall vp: nat | Covers(base, n, vp)
      ensures Walk(t', a, n, vp) == if j.v <= vp < j.v + Span(n) then Target(f, j, vp) else Walk(s.t, a, n, vp)
    {
      if j.v <= vp < j.v + Span(n) {
        SlotUnique(base, n, vp, i);
        BlockOffset(j.v, Span(n), vp);
      } else {
        SlotOfPage(base, n, vp);
        forall b | b in s.t && At(s.place, b, vp) && s.place[b].level <= n
          ensures t'[b][Index(vp, s.place[b].level)] == s.t[b][Index(vp, s.place[b].level)]
        {
        }
        WalkSame(s.t, t', s.place, a, vp);
      }
    }
  }

  // ---------------------------------------------------------------- alignment

  lemma {:induction false} FinerAligned(v: nat, n: nat, m: nat)
    requires m <= n && v % Span(n) == 0
    ensures v % Span(m) == 0
    decreases n
  {
    if m < n {
      var s := Span(n - 1);
      var q := Factor(v, 512 * s);
      Regroup(q, 0, s);
      ModOf(v, s, q * 512, 0);
      FinerAligned(v, n - 1, m);
    }
  }

  lemma ChildAligned(base: nat, n: nat, i: nat)
    requires Based(base, n)
    ensures Child(base, n, i) % Span(n) == 0
  {
    hide Based, Child, Span;
    var q := ChildFactor(base, n);
    ModOf(Child(base, n, i), Span(n), q * 512 + i, 0);
  }

  /** At the start of a slot every finer block is aligned as well. */
  lemma BoundaryNice(base: nat, n: nat, i: nat, j: Job)
    requires Based(base, n) && j.v == Child(base, n, i)
    ensures Nice(j, n)
  {
    hide Based, Child, Span;
    ChildAligned(base, n, i);
    forall m: nat | m <= n ensures j.v % Span(m) == 0 { FinerAligned(j.v, n, m); }
  }

  /** Where a block is written, the alignment of the virtual page decides. */
  lemma BlockyNice(base: nat, n: nat, i: nat, j: Job)
    requires Based(base, n) && Child(base, n, i) <= j.v < Child(base, n, i + 1) && Blocky(j, n)
    ensures Nice(j, n) <==> j.v == Child(base, n, i)
  {
    if j.v == Child(base, n, i) {
      BoundaryNice(base, n, i, j);
    } else if j.v % Span(n) == 0 {
      AlignedSlot(base, n, i, j.v);
    }
  }

  // ---------------------------------------------------------------- the outcome of a call

  /** The cursors moved together. */
  ghost predicate Moved(j: Job, rest: Job) {
    j.v <= rest.v <= j.v + j.size && rest == Advance(j, rest.v - j.v)
  }

  /** Pages before `hi` translate as before. */
  ghost predicate Below(t: Tables, t': Tables, a: nat, base: nat, n: nat, hi: nat) {
    forall vp: nat :: Covers(base, n, vp) && vp < hi ==> Walk(t', a, n, vp) == Walk(t, a, n, vp)
  }

  /** The first block descriptor, of level `m`, covers pages before the range: the first page is off its frame by as
      many pages, or the page before the range was unmapped. */
  ghost predicate Astray(t': Tables, a: nat, base: nat, n: nat, f: Fill, j: Job) {
    if f.unmap then j.v > base && Walk(t', a, n, j.v - 1) == None
    else exists m: nat ::
      m <= n && Blocky(j, m) && j.v % Span(m) > 0 && Walk(t', a, n, j.v) == Some(Mapping(j.p + j.v % Span(m), f.attr))
  }

  /** A step worked on the slots that cover `lo..hi`. */
  ghost predicate Stepped(t: Tables, t': Tables, a: nat, base: nat, n: nat, f: Fill, j: Job, lo: nat, hi: nat,
                          nice: bool, rest: Job) {
    && Moved(j, rest)
    && (rest.size == 0 || hi <= rest.v < hi + Span(n))
    && Below(t, t', a, base, n, lo)
    && (nice ==> Filled(t, t', a, base, n, f, j, rest.v - j.v) && rest.v <= hi && (rest.size == 0 || rest.v == hi))
    && (!nice ==> Astray(t', a, base, n, f, j))
  }

  lemma SteppedThen(t: Tables, u: Tables, w: Tables, a: nat, base: nat, n: nat, f: Fill, j: Job,
                    lo: nat, mid: nat, hi: nat, nice: bool, nice': bool, rest: Job, rest': Job)
    requires Stepped(t, u, a, base, n, f, j, lo, mid, nice, rest) &&
      Stepped(u, w, a, base, n, f, rest, mid, hi, nice', rest')
    requires Covers(base, n, j.v) && base <= lo <= j.v < mid <= hi && (nice ==> nice')
    ensures Stepped(t, w, a, base, n, f, j, lo, hi, nice, rest')
  {
    hide Walk, Span, Covers;
    if nice {
      FilledTrans(t, u, w, a, base, n, f, j, rest.v - j.v, rest'.v - rest.v);
    } else {
      AstrayKept(u, w, a, base, n, f, j, mid);
    }
  }

  lemma AstrayKept(u: Tables, w: Tables, a: nat, base: nat, n: nat, f: Fill, j: Job, hi: nat)
    requires Astray(u, a, base, n, f, j) && Below(u, w, a, base, n, hi) && Covers(base, n, j.v) && j.v < hi
    ensures Astray(w, a, base, n, f, j)
  {
    hide Walk, Span;
    assert f.unmap ==> Covers(base, n, j.v - 1);
  }

  // ---------------------------------------------------------------- slots and pages

  lemma OtherSlot(base: nat, n: nat, i: nat, vp: nat)
    requires Based(base, n) && Covers(base, n, vp) && (vp < Child(base, n, i) || Child(base, n, i + 1) <= vp)
    ensures Index(vp, n) != i
  {
    hide Index, Based, Child, Span, Covers;
    SlotOfPage(base, n, vp);
  }

  lemma SlotFrom(base: nat, n: nat, vp: nat, k: nat)
    requires Child(base, n, Index(vp, n)) <= vp < Child(base, n, Index(vp, n) + 1) && Child(base, n, k) <= vp
    ensures k <= Index(vp, n)
  {
    hide Index, Child;
    if k > Index(vp, n) { ChildMono(base, n, Index(vp, n) + 1, k); }
  }

  // ---------------------------------------------------------------- the block loop

  /** A run of blocks whose first slot starts at `lo` and whose cursor stood at `j.v`. */
  lemma BlocksStepped(t: Tables, t': Tables, a: nat, base: nat, n: nat, f: Fill, j: Job, i: nat, k: nat, rest: Job)
    requires Based(base, n) && Blocky(j, n) && i < k <= ENTRIES && Child(base, n, i) <= j.v < Child(base, n, i + 1)
    requires Filled(t, t', a, base, n, f, Job(j.p, Child(base, n, i), j.size), Child(base, n, k) - Child(base, n, i))
    requires Moved(j, rest) && rest.v - j.v == Child(base, n, k) - Child(base, n, i)
    ensures Stepped(t, t', a, base, n, f, j, Child(base, n, i), Child(base, n, k), Nice(j, n), rest)
  {
    hide Walk, Span, Based, Nice, Blocky, Child;
    BlockyNice(base, n, i, j);
    ChildStep(base, n, i);
    ChildStep(base, n, k);
    ChildMono(base, n, i + 1, k);
    ChildMono(base, n, i + 1, ENTRIES);
    ChildMono(base, n, 0, i);
    assert Covers(base, n, j.v);
    if j.v > Child(base, n, i) {
      assert Covers(base, n, j.v - 1);
      ChildAligned(base, n, i);
      BlockOffset(Child(base, n, i), Span(n), j.v);
    }
  }

  lemma FilledNone(t: Tables, a: nat, base: nat, n: nat, f: Fill, j: Job)
    ensures Filled(t, t, a, base, n, f, j, 0)
  {
  }

  lemma AreaFrameRefl(s: State, n: nat, lo: nat, hi: nat)
    ensures AreaFrame(s, s, n, lo, hi)
  {
  }

  // ---------------------------------------------------------------- the table below a slot

  lemma SlotWalk(s: State, a: nat, n: nat, base: nat, i: nat, c: nat, vp: nat)
    requires SoundState(s) && a in s.t && s.place[a].level == n > 0 && s.place[a].base == base
    requires i < ENTRIES && s.t[a][i] == Table(c) && Covers(Child(base, n, i), n - 1, vp)
    ensures Covers(base, n, vp) && Walk(s.t, a, n, vp) == Walk(s.t, c, n - 1, vp)
  {
    hide Index, Based, Child;
    TableFacts(s.t, s.place, a);
    ChildStep(base, n, i);
    SlotUnique(base, n, vp, i);
  }

  /** What a call did to the table below slot `i`, seen from the table above. */
  lemma Lifted(s: State, s': State, a: nat, n: nat, base: nat, i: nat, c: nat, f: Fill, j: Job, nice: bool, rest: Job)
    requires SoundState(s) && SoundState(s') && a in s.t && s.place[a].level == n > 0 && s.place[a].base == base
    requires i < ENTRIES && s.t[a][i] == Table(c) && Covers(Child(base, n, i), n - 1, j.v)
    requires AreaFrame(s, s', n - 1, Child(base, n, i), Child(base, n, i) + Span(n))
    requires Stepped(s.t, s'.t, c, Child(base, n, i), n - 1, f, j, Child(base, n, i), Child(base, n, i) + Span(n), nice,
                     rest)
    ensures Stepped(s.t, s'.t, a, base, n, f, j, Child(base, n, i), Child(base, n, i + 1), nice, rest)
  {
    hide Index, Based, Child, Walk, Shaped;
    var cb := Child(base, n, i);
    ChildStep(base, n, i);
    TableFacts(s.t, s.place, a);
    assert s'.t[a] == s.t[a];
    ChildMono(base, n, 0, i);
    forall vp: nat | Covers(base, n, vp)
      ensures Covers(cb, n - 1, vp) ==>
        Walk(s.t, a, n, vp) == Walk(s.t, c, n - 1, vp) && Walk(s'.t, a, n, vp) == Walk(s'.t, c, n - 1, vp)
      ensures !Covers(cb, n - 1, vp) ==> Walk(s'.t, a, n, vp) == Walk(s.t, a, n, vp)
    {
      if Covers(cb, n - 1, vp) {
        SlotWalk(s, a, n, base, i, c, vp);
        SlotWalk(s', a, n, base, i, c, vp);
      } else {
        AreaFrameWalk(s, s', n - 1, cb, cb + Span(n), a, vp);
      }
    }
    SlotWalk(s, a, n, base, i, c, j.v);
    if f.unmap && !nice { SlotWalk(s, a, n, base, i, c, j.v - 1); }
  }

  // ---------------------------------------------------------------- a new table, linked after it was filled

  ghost predicate SameWalks(t: Tables, u: Tables, a: nat, base: nat, n: nat) {
    forall vp: nat :: Covers(base, n, vp) ==> Walk(t, a, n, vp) == Walk(u, a, n, vp)
  }

  lemma SteppedSame(t: Tables, t': Tables, u: Tables, u': Tables, a: nat, base: nat, n: nat, f: Fill, j: Job,
                    lo: nat, hi: nat, nice: bool, rest: Job)
    requires Stepped(t, t', a, base, n, f, j, lo, hi, nice, rest) && Covers(base, n, j.v)
    requires SameWalks(t, u, a, base, n) && SameWalks(t', u', a, base, n)
    ensures Stepped(u, u', a, base, n, f, j, lo, hi, nice, rest)
  {
    hide Walk, Span;
    if f.unmap && !nice { assert Covers(base, n, j.v - 1); }
  }

  /** A write to a table above does not change the walks of `c`. */
  lemma WalksBeside(s: State, a: nat, i: nat, x: Slot, c: nat)
    requires SoundState(s) && a in s.t && c in s.t && s.place[c].level < s.place[a].level && i < ENTRIES
    ensures SameWalks(s.t, Put(s.t, a, i, x), c, s.place[c].base, s.place[c].level)
  {
    hide Walk, Span, Index, Based, Child;
    forall vp: nat | At(s.place, c, vp)
      ensures Walk(s.t, c, s.place[c].level, vp) == Walk(Put(s.t, a, i, x), c, s.place[c].level, vp)
    {
      WalkSame(s.t, Put(s.t, a, i, x), s.place, c, vp);
    }
  }

  function Made(s: State, c: nat, p: Place,
                table: seq<Slot>): State { State(s.t[c := table], s.place[c := p], s.frames - {c}) }

  function Hung(s: State, a: nat, i: nat, c: nat): State
    requires a in s.t && i < |s.t[a]|
  {
    State(Put(s.t, a, i, Table(c)), s.place, s.frames)
  }

  /** Hanging an empty table into an invalid slot changes no walk. */
  lemma MadeHung(s: State, s1: State, a: nat, n: nat, base: nat, i: nat, c: nat)
    requires SoundState(s) && a in s.t && s.place[a].level == n > 0 && s.place[a].base == base
    requires i < ENTRIES && s.t[a][i].Invalid? && c in s.frames
    requires s1 == Made(s, c, Place(n - 1, Child(base, n, i), a), EMPTY) && SoundState(s1)
    ensures SoundState(Hung(s1, a, i, c)) && SameWalks(Hung(s1, a, i, c).t, s.t, a, base, n)
  {
    hide Walk, Index, Based, Child, Grew, Span, Covers;
    AllocGrew(s, c, Place(n - 1, Child(base, n, i), a));
    LinkGrew(s, s1, a, i, c, n);
    var s1' := Hung(s1, a, i, c);
    KeptRoot(s, s1', a, n);
    forall vp: nat | Covers(base, n, vp) ensures Walk(s1'.t, a, n, vp) == Walk(s.t, a, n, vp) {
      GrownWalk(s.t, s1'.t, a, n, vp);
    }
  }

  /** Filling the new table and hanging it afterwards does what filling it in place would do. */
  lemma MadeStepped(s: State, s1: State, u: State, a: nat, n: nat, base: nat, i: nat, c: nat, f: Fill, j: Job,
                    nice: bool, rest: Job)
    requires SoundState(s) && a in s.t && s.place[a].level == n > 0 && s.place[a].base == base
    requires i < ENTRIES && s.t[a][i].Invalid? && c in s.frames && Covers(Child(base, n, i), n - 1, j.v)
    requires s1 == Made(s, c, Place(n - 1, Child(base, n, i), a), EMPTY) && SoundState(s1) && SoundState(u)
    requires AreaFrame(s1, u, n - 1, Child(base, n, i), Child(base, n, i) + Span(n)) && a in u.t && |u.t[a]| == ENTRIES
    requires Stepped(s1.t, u.t, c, Child(base, n, i), n - 1, f, j, Child(base, n, i), Child(base, n, i) + Span(n), nice,
                     rest)
    ensures SoundState(Hung(u, a, i, c)) && AreaFrame(s, Hung(u, a, i, c), n, base, base + Span(n + 1))
    ensures Stepped(s.t, Hung(u, a, i, c).t, a, base, n, f, j, Child(base, n, i), Child(base, n, i + 1), nice, rest)
  {
    hide Walk, Index, Based, Stepped, SameWalks, Child, Covers, AreaFrame;
    var cb := Child(base, n, i);
    var s1', u' := Hung(s1, a, i, c), Hung(u, a, i, c);
    KeptInArea(s1, u, n - 1, cb, cb + Span(n), a);
    KeptInArea(s1, u, n - 1, cb, cb + Span(n), c);
    MadeHung(s, s1, a, n, base, i, c);
    PutShaped(u.t, u.place, a, i, Table(c));
    WalksBeside(s1, a, i, Table(c), c);
    WalksBeside(u, a, i, Table(c), c);
    SteppedSame(s1.t, u.t, s1'.t, u'.t, c, cb, n - 1, f, j, cb, cb + Span(n), nice, rest);
    HungFrames(s, s1, u, a, n, base, i, c);
    Lifted(s1', u', a, n, base, i, c, f, j, nice, rest);
    SameRefl(u'.t, a, base, n);
    ChildCovers(base, n, i, j.v);
    SteppedSame(s1'.t, u'.t, s.t, u'.t, a, base, n, f, j, cb, Child(base, n, i + 1), nice, rest);
  }

  lemma SameRefl(t: Tables, a: nat, base: nat, n: nat)
    ensures SameWalks(t, t, a, base, n)
  {
  }

  lemma ChildCovers(base: nat, n: nat, i: nat, vp: nat)
    requires n > 0 && i < ENTRIES && Covers(Child(base, n, i), n - 1, vp)
    ensures Covers(base, n, vp) && Child(base, n, i) <= vp < Child(base, n, i + 1)
  {
    ChildStep(base, n, i);
    ChildMono(base, n, i + 1, ENTRIES);
    ChildMono(base, n, 0, i);
  }

  lemma KeptInArea(s: State, s': State, n: nat, lo: nat, hi: nat, b: nat)
    requires AreaFrame(s, s', n, lo, hi) && b in s.t && b in s.place
    ensures b in s'.t && b in s'.place && s'.place[b] == s.place[b] && (s.place[b].level > n ==> s'.t[b] == s.t[b])
  {
  }

  /** Hanging `c` afterwards changes table `a` alone. */
  lemma HungFrames(s: State, s1: State, u: State, a: nat, n: nat, base: nat, i: nat, c: nat)
    requires SoundState(s) && a in s.t && s.place[a].level == n > 0 && s.place[a].base == base && i < ENTRIES
    requires c in s.frames && s1 == Made(s, c, Place(n - 1, Child(base, n, i), a), EMPTY)
    requires AreaFrame(s1, u, n - 1, Child(base, n, i), Child(base, n, i) + Span(n)) && a in u.t && |u.t[a]| == ENTRIES
    ensures AreaFrame(Hung(s1, a, i, c), Hung(u, a, i, c), n - 1, Child(base, n, i), Child(base, n, i) + Span(n))
    ensures AreaFrame(s, Hung(u, a, i, c), n, base, base + Span(n + 1))
  {
    hide Based, Child, Span, Shaped, RangeIn, EMPTY, SlotOk;
    TableFacts(s.t, s.place, a);
    KeptInArea(s1, u, n - 1, Child(base, n, i), Child(base, n, i) + Span(n), a);
    assert Hung(u, a, i, c).t.Keys == u.t.Keys && Hung(s1, a, i, c).t.Keys == s1.t.Keys;
    MadeFrame(s, s1, u, n, base, i, c, Place(n - 1, Child(base, n, i), a));
    PutFrame(u, a, n, base, i, Table(c));
    AreaFrameTrans(s, u, Hung(u, a, i, c), n, base, base + Span(n + 1));
  }

  lemma MadeFrame(s: State, s1: State, u: State, n: nat, base: nat, i: nat, c: nat, p: Place)
    requires SoundState(s) && n > 0 && i < ENTRIES && c in s.frames && s1 == Made(s, c, p, EMPTY)
    requires AreaFrame(s1, u, n - 1, Child(base, n, i), Child(base, n, i) + Span(n))
    ensures AreaFrame(s, u, n, base, base + Span(n + 1))
  {
    hide Based, Child, Span, Shaped, EMPTY;
    ChildStep(base, n, i);
    ChildMono(base, n, i + 1, ENTRIES);
    ChildMono(base, n, 0, i);
    assert s1.t.Keys == s.t.Keys + {c};
  }

  lemma PutFrame(s: State, a: nat, n: nat, base: nat, i: nat, x: Slot)
    requires a in s.t && a in s.place && s.place[a].level == n && s.place[a].base == base && i < |s.t[a]|
    ensures AreaFrame(s, State(Put(s.t, a, i, x), s.place, s.frames), n, base, base + Span(n + 1))
  {
  }

  /** A table that was never hung can be given back. */
  lemma GivenBack(u: State, a: nat, n: nat, base: nat, i: nat, c: nat)
    requires SoundState(u) && a in u.t && c in u.t && u.place[a].level == n > 0 && u.place[a].base == base &&
      i < ENTRIES
    requires u.place[c] == Place(n - 1, Child(base, n, i), a) && !u.t[a][i].Table?
    ensures SoundState(State(u.t - {c}, u.place - {c}, u.frames + {c})) &&
      SoundState(State(u.t - {c}, u.place - {c}, u.frames))
  {
    hide Based, Child;
    var t', place' := u.t - {c}, u.place - {c};
    forall b, k | b in t' && 0 <= k < |t'[b]| ensures SlotOk(t', place', b, k) {
      assert SlotOk(u.t, u.place, b, k);
      if t'[b][k] == Table(c) { ChildInjective(base, n, i, k); }
    }
  }

  lemma ChildInjective(base: nat, n: nat, i: nat, k: nat)
    requires Child(base, n, i) == Child(base, n, k)
    ensures i == k
  {
    if i < k { MulStrict(i, k, Span(n)); } else if k < i { MulStrict(k, i, Span(n)); }
  }

  // ---------------------------------------------------------------- steps of the recursion

  lemma StepMoved(t: Tables, u: Tables, a: nat, base: nat, n: nat, f: Fill, j: Job, lo: nat, hi: nat, rest: Job)
    requires Stepped(t, u, a, base, n, f, j, lo, hi, Nice(j, n), rest)
    ensures Moved(j, rest)
  {
    hide Nice, Below, Filled, Astray, Span;
  }

  lemma PagesStepped(t: Tables, t': Tables, a: nat, base: nat, f: Fill, j: Job, rest: Job)
    requires Covers(base, 0, j.v) && rest == Advance(j, Reach(j, base, 0)) &&
      Filled(t, t', a, base, 0, f, j, Reach(j, base, 0))
    ensures Stepped(t, t', a, base, 0, f, j, base, base + Span(1), Nice(j, 0), rest)
  {
    hide Walk;
  }

  /** Between two steps the cursor stands in the next slot. */
  lemma SteppedCursor(t: Tables, t': Tables, a: nat, base: nat, n: nat, f: Fill, j: Job, lo: nat, index: nat,
                      nice: bool, rest: Job)
    requires Stepped(t, t', a, base, n, f, j, lo, Child(base, n, index), nice, rest) && rest.size > 0 && Based(base, n)
    ensures Child(base, n, index) <= rest.v < Child(base, n, index + 1)
    ensures nice ==> Nice(rest, n)
  {
    hide Walk, Filled, Below, Span, Based, Nice, Child;
    ChildStep(base, n, index);
    if nice { BoundaryNice(base, n, index, rest); }
  }

  lemma StepAgain(t: Tables, u: Tables, w: Tables, a: nat, base: nat, n: nat, f: Fill, j: Job,
                  i0: nat, index: nat, next: nat, rest: Job, rest': Job)
    requires Based(base, n) && Covers(base, n, j.v) && i0 < index < next && rest.size > 0
    requires Child(base, n, i0) <= j.v < Child(base, n, i0 + 1)
    requires Stepped(t, u, a, base, n, f, j, Child(base, n, i0), Child(base, n, index), Nice(j, n), rest)
    requires Stepped(u, w, a, base, n, f, rest, Child(base, n, index), Child(base, n, next), Nice(rest, n), rest')
    ensures Stepped(t, w, a, base, n, f, j, Child(base, n, i0), Child(base, n, next), Nice(j, n), rest')
  {
    hide Stepped, Child, Nice, Based, Covers;
    SteppedCursor(t, u, a, base, n, f, j, Child(base, n, i0), index, Nice(j, n), rest);
    ChildStep(base, n, i0);
    ChildMono(base, n, 0, i0);
    ChildMono(base, n, i0 + 1, index);
    ChildMono(base, n, index, next);
    SteppedThen(t, u, w, a, base, n, f, j, Child(base, n, i0), Child(base, n, index), Child(base, n, next),
                Nice(j, n), Nice(rest, n), rest, rest');
  }

  lemma StepsDone(t: Tables, t': Tables, a: nat, base: nat, n: nat, f: Fill, j: Job, i0: nat, index: nat, rest: Job)
    requires n > 0 && i0 < ENTRIES && i0 <= index <= ENTRIES && (rest.size == 0 || index == ENTRIES)
    requires index == i0 ==> rest == j && t' == t
    requires index > i0 ==>
      Stepped(t, t', a, base, n, f, j, Child(base, n, i0), Child(base, n, index), Nice(j, n), rest)
    requires Covers(base, n, j.v)
    ensures Stepped(t, t', a, base, n, f, j, base, base + Span(n + 1), Nice(j, n), rest)
  {
    hide Walk, Child, Span;
    ChildStep(base, n, 0);
    ChildMono(base, n, 0, i0);
    ChildMono(base, n, index, ENTRIES);
  }

  lemma TooSmall(j: Job, n: nat)
    requires j.size < Span(n)
    ensures !Blocky(j, n)
  {
  }

  lemma NotBlocky(j: Job, n: nat)
    requires n > 0 && (!Blocky(j, n) || j.size < Span(n))
    ensures Nice(j, n) == Nice(j, n - 1)
  {
    hide Span;
  }

  lemma SlotFacts(t: Tables, place: map<nat, Place>, a: nat, i: nat)
    requires Shaped(t, place) && a in t && i < ENTRIES && t[a][i].Table?
    ensures place[a].level > 0 && t[a][i].addr in t
    ensures place[t[a][i].addr] == Place(place[a].level - 1, Child(place[a].base, place[a].level, i), a)
  {
    hide Based, Child;
    assert SlotOk(t, place, a, i);
  }

  lemma LiftedFrame(s: State, s': State, n: nat, base: nat, i: nat)
    requires n > 0 && i < ENTRIES && AreaFrame(s, s', n - 1, Child(base, n, i), Child(base, n, i) + Span(n))
    ensures AreaFrame(s, s', n, base, base + Span(n + 1))
  {
    hide Child, Span, RangeIn;
    ChildStep(base, n, i);
    ChildMono(base, n, i + 1, ENTRIES);
    ChildMono(base, n, 0, i);
    AreaFrameWiden(s, s', n - 1, Child(base, n, i), Child(base, n, i) + Span(n), n, base, base + Span(n + 1));
  }

  lemma PlaceOf(s: State, a: nat)
    requires SoundState(s) && a in s.t
    ensures a in s.place
  {
  }

  lemma MadeHas(s: State, c: nat, p: Place, table: seq<Slot>, a: nat)
    requires a in s.t && a in s.place
    ensures var s1 := Made(s, c, p, table);
      a in s1.t && a in s1.place && c in s1.t && c in s1.place && s1.t[c] == table && s1.place[c] == p
    ensures a != c ==> Made(s, c, p, table).t[a] == s.t[a] && Made(s, c, p, table).place[a] == s.place[a]
  {
  }

  lemma BackFrame(s: State, u: State, n: nat, base: nat, c: nat)
    requires SoundState(s) && c in s.frames && c in u.t && AreaFrame(s, u, n, base, base + Span(n + 1))
    ensures AreaFrame(s, State(u.t - {c}, u.place - {c}, u.frames + {c}), n, base, base + Span(n + 1))
    ensures AreaFrame(s, State(u.t - {c}, u.place - {c}, u.frames), n, base, base + Span(n + 1))
  {
    hide Shaped, RangeIn, Span;
    var w := State(u.t - {c}, u.place - {c}, u.frames + {c});
    assert w.t.Keys + w.frames == u.t.Keys + u.frames;
  }
}
