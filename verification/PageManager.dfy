/** The operations of PageManager (src/arch/aarch64/paging/mod.rs) on the tables, in place. */
module Paging {
  import opened Collections
  import opened Radix
  import opened PageTable
  import opened TablePaths

  datatype PagingError =
    | MemoryCacheRanOut | MemoryCacheOverflowed | EntryIsNotFound
    | AddressIsNotAligned | SizeIsNotAligned | InvalidPageTable

  datatype Result<T> = Ok(value: T) | Err(error: PagingError)

  const PAGE: nat := 4096

  const EMPTY: seq<Slot> := seq(ENTRIES, _ => Invalid)

  ghost predicate HasDescriptor(t: Tables, a: nat)
    requires a in t
  {
    exists i :: 0 <= i < |t[a]| && !t[a][i].Invalid?
  }

  lemma PutShaped(t: Tables, place: map<nat, Place>, a: nat, i: nat, s: Slot)
    requires Shaped(t, place) && a in t && i < ENTRIES
    requires s.Table? ==>
      && place[a].level > 0 && s.addr in t
      && place[s.addr] == Place(place[a].level - 1, Child(place[a].base, place[a].level, i), a)
    ensures Shaped(Put(t, a, i, s), place)
  {
    hide Based, Child;
    var t' := Put(t, a, i, s);
    forall b, j | b in t' && 0 <= j < |t'[b]| ensures SlotOk(t', place, b, j) {
      assert SlotOk(t, place, b, j);
    }
  }

  lemma PutGrown(t: Tables, u: Tables, a: nat, i: nat, c: nat)
    requires Grown(t, u) && a in t && |t[a]| == ENTRIES && i < ENTRIES && t[a][i].Invalid? && c !in t
    ensures Grown(t, Put(u, a, i, Table(c)))
  {
    var v := Put(u, a, i, Table(c));
    forall b, j | b in t && 0 <= j < ENTRIES && |t[b]| == ENTRIES ensures KeptSlot(t, t[b][j], v[b][j]) {
      assert KeptSlot(t, t[b][j], u[b][j]);
    }
    forall b, j | b in v && b !in t && 0 <= j < ENTRIES ensures KeptSlot(t, Invalid, v[b][j]) {
      assert KeptSlot(t, Invalid, u[b][j]);
    }
  }

  /** A path only depends on the tables of its levels. */
  lemma {:induction false} ReachesSame(t: Tables, t': Tables, place: map<nat, Place>, a: nat, vp: nat, b: nat)
    requires Shaped(t, place) && a in t && At(place, a, vp) && Reaches(t, a, place[a].level, vp, b)
    requires forall c :: c in t && place[c].level <= place[a].level ==> c in t' && t'[c] == t[c]
    ensures Reaches(t', a, place[a].level, vp, b)
    decreases place[a].level
  {
    hide Index, Covers, Child, Based;
    if place[a].level > 0 {
      ChildAt(t, place, a, vp);
      ReachesSame(t, t', place, t[a][Index(vp, place[a].level)].addr, vp, b);
    }
  }

  /** The parts of the manager that the operations below change. */
  datatype State = State(t: Tables, place: map<nat, Place>, frames: set<nat>)

  ghost predicate SoundState(s: State) {
    Shaped(s.t, s.place) && s.frames !! s.t.Keys
  }

  /** What adding tables under a level-`n` table may change: tables of that level or below, and no frame is lost. */
  ghost predicate Grew(s: State, s': State, n: nat) {
    && Grown(s.t, s'.t)
    && s'.t.Keys + s'.frames == s.t.Keys + s.frames && s'.frames <= s.frames
    && (forall b :: b in s.place ==> b in s'.place && s'.place[b] == s.place[b])
    && (forall b :: b in s.t && b in s.place && s.place[b].level > n ==> s'.t[b] == s.t[b])
    && (forall b :: b in s'.t && b !in s.t ==> b in s.frames && b in s'.place && s'.place[b].level < n)
  }

  /** The new tables, except the one that is about to receive the page descriptor, have a valid descriptor. */
  ghost predicate NewInUse(t: Tables, t': Tables, last: nat) {
    forall b :: b in t' && b !in t && b != last ==> HasDescriptor(t', b)
  }

  /** How many tables are missing on the path of `vp` below the level-`n` table `a`; none where a block ends it. */
  function Missing(t: Tables, a: nat, n: nat, vp: nat): (k: nat)
    ensures k <= n
    decreases n
  {
    if n == 0 || a !in t || |t[a]| != ENTRIES then 0
    else
      match t[a][Index(vp, n)]
      case Invalid => n
      case Leaf(_, _) => 0
      case Table(c) => Missing(t, c, n - 1, vp)
  }

  lemma MissingInNew(t: Tables, a: nat, n: nat, vp: nat)
    requires a in t && t[a] == EMPTY
    ensures Missing(t, a, n, vp) == n
  {
  }

  /** The new tables hang below `a`. */
  ghost predicate NewHangs(s: State, s': State, a: nat) {
    forall b :: b in s'.t && b !in s.t ==> Hangs(s'.t, s'.place, a, b)
  }

  lemma NewHangsUp(s: State, s': State, a: nat, i: nat)
    requires SoundState(s') && a in s'.t && i < ENTRIES && |s'.t[a]| == ENTRIES && s'.t[a][i].Table? &&
      NewHangs(s, s', s'.t[a][i].addr)
    ensures NewHangs(s, s', a)
  {
    hide Hangs;
    forall b | b in s'.t && b !in s.t ensures Hangs(s'.t, s'.place, a, b) { HangsUp(s'.t, s'.place, a, i, b); }
  }

  /** The new table `f` is linked with what hangs below it. */
  lemma LinkHangs(s: State, s1: State, u: State, a: nat, i: nat, f: nat)
    requires SoundState(u) && a in u.t && |u.t[a]| == ENTRIES && i < ENTRIES && u.t[a][i].Invalid? && f in u.t
    requires s1.t.Keys == s.t.Keys + {f} && NewHangs(s1, u, f)
    requires var v := u.(t := Put(u.t, a, i, Table(f))); SoundState(v)
    ensures NewHangs(s, u.(t := Put(u.t, a, i, Table(f))), a)
  {
    hide LeadsTo, Covers, Span, Index, Child, Based;
    var v := u.(t := Put(u.t, a, i, Table(f)));
    forall b | b in v.t && b !in s.t ensures Hangs(v.t, v.place, f, b) {
      if b == f {
        SelfHangs(v.t, v.place, f);
      } else {
        PutLeads(u.t, f, u.place[f].level, u.place[b].base, b, u.place[b].level, a, i, Table(f));
      }
    }
    NewHangsUp(s, v, a, i);
  }

  lemma GrewLost(s: State, s': State, n: nat, root: nat)
    requires SoundState(s) && SoundState(s') && Grew(s, s', n) && NewHangs(s, s', root) && root in s.t
    ensures Lost(s'.t, s'.place, root) == Lost(s.t, s.place, root)
  {
    hide LeadsTo, Covers, Grown, Shaped;
    KeysAre(s.t, s.place);
    Lengths(s.t, s.place);
    forall b | b in s.t ensures Hangs(s'.t, s'.place, root, b) <==> Hangs(s.t, s.place, root, b) {
      var n, m, vp := s.place[root].level, s.place[b].level, s.place[b].base;
      if Hangs(s.t, s.place, root, b) { GrownLeads(s.t, s'.t, root, n, vp, b, m); }
      if Hangs(s'.t, s'.place, root, b) { GrownLeadsBack(s.t, s'.t, root, n, vp, b, m); }
    }
  }

  lemma KeysAre(t: Tables, place: map<nat, Place>)
    requires Shaped(t, place)
    ensures t.Keys == place.Keys
  {
  }

  lemma GrewRefl(s: State, n: nat)
    requires SoundState(s)
    ensures Grew(s, s, n)
  {
  }

  lemma GrewUp(s: State, s': State, n: nat)
    requires Grew(s, s', n)
    ensures Grew(s, s', n + 1)
  {
  }

  lemma AllocGrew(s: State, f: nat, p: Place)
    requires SoundState(s) && f in s.frames
    ensures Grew(s, State(s.t[f := EMPTY], s.place[f := p], s.frames - {f}), p.level + 1)
  {
  }

  lemma GrewTrans(s: State, u: State, v: State, n: nat)
    requires SoundState(s) && Grew(s, u, n) && Grew(u, v, n)
    ensures Grew(s, v, n)
  {
    GrownTrans(s.t, u.t, v.t);
    hide Grown;
  }

  /** Linking the new table `f` into the invalid slot that it was made for. */
  lemma LinkGrew(s: State, u: State, a: nat, i: nat, f: nat, n: nat)
    requires SoundState(s) && SoundState(u) && Grew(s, u, n)
    requires a in s.t && s.place[a].level == n > 0 && i < ENTRIES && s.t[a][i].Invalid? && u.t[a] == s.t[a]
    requires f !in s.t && f in u.t && u.place[f] == Place(n - 1, Child(s.place[a].base, n, i), a)
    ensures var v := u.(t := Put(u.t, a, i, Table(f))); Grew(s, v, n) && SoundState(v)
  {
    hide Based, Child;
    PutGrown(s.t, u.t, a, i, f);
    PutShaped(u.t, u.place, a, i, Table(f));
    hide Grown, Shaped;
  }

  lemma LinkInUse(t: Tables, u: Tables, a: nat, i: nat, f: nat, last: nat)
    requires a in t && a in u && i < |u[a]| && t.Keys <= u.Keys && f !in t && f in u &&
      (f == last || HasDescriptor(u, f))
    requires forall b :: b in u && b !in t && b != f && b != last ==> HasDescriptor(u, b)
    ensures NewInUse(t, Put(u, a, i, Table(f)), last)
  {
    var v := Put(u, a, i, Table(f));
    forall b | b in v && b !in t && b != last ensures HasDescriptor(v, b) {
      var j :| 0 <= j < |u[b]| && !u[b][j].Invalid?;
      assert !v[b][j].Invalid?;
    }
  }

  // ---------------------------------------------------------------- one page descriptor

  lemma {:induction false} ReachesPut(t: Tables, place: map<nat, Place>, a: nat, vp: nat, b: nat, i: nat, s: Slot)
    requires Shaped(t, place) && a in t && At(place, a, vp) && Reaches(t, a, place[a].level, vp, b)
    requires b in t && place[b].level == 0 && i < ENTRIES
    ensures Reaches(Put(t, b, i, s), a, place[a].level, vp, b)
    decreases place[a].level
  {
    hide Index, Covers, Child, Based;
    if place[a].level > 0 {
      ChildAt(t, place, a, vp);
      ReachesPut(t, place, t[a][Index(vp, place[a].level)].addr, vp, b, i, s);
    }
  }

  lemma PageSlot(t: Tables, place: map<nat, Place>, b: nat, i: nat)
    requires Shaped(t, place) && b in t && place[b].level == 0 && i < |t[b]|
    ensures !t[b][i].Table?
  {
    hide Based, Child;
    assert SlotOk(t, place, b, i);
  }

  /** In a level-0 table different pages have different slots. */
  lemma PageSlots(base: nat, vp: nat, vq: nat)
    requires Based(base, 0) && Covers(base, 0, vp) && Covers(base, 0, vq) && Index(vp, 0) == Index(vq, 0)
    ensures vp == vq
  {
    hide Index;
    SlotOfPage(base, 0, vp);
    SlotOfPage(base, 0, vq);
  }

  /** Writing the page descriptor of `vp` changes the walk of `vp` only. */
  lemma PutPageWalk(t: Tables, place: map<nat, Place>, a: nat, vp: nat, b: nat, s: Slot, vq: nat)
    requires Shaped(t, place) && a in t && At(place, a, vp) && At(place, a, vq) && Reaches(t, a, place[a].level, vp, b)
    requires b in t && |t[b]| == ENTRIES
    ensures var t' := Put(t, b, Index(vp, 0), s);
      Walk(t', a, place[a].level, vq) == if vq == vp then PageOf(t', b, vp) else Walk(t, a, place[a].level, vq)
  {
    hide Index, Child, Span;
    var t' := Put(t, b, Index(vp, 0), s);
    ReachedPlace(t, place, a, vp, b);
    if vq == vp {
      ReachesPut(t, place, a, vp, b, Index(vp, 0), s);
      ReachedWalk(t', a, place[a].level, vp, b);
    } else {
      forall c | c in t && At(place, c, vq) && place[c].level <= place[a].level
        ensures t'[c][Index(vq, place[c].level)] == t[c][Index(vq, place[c].level)]
      {
        if c == b && Index(vq, 0) == Index(vp, 0) { PageSlots(place[b].base, vp, vq); }
      }
      WalkSame(t, t', place, a, vq);
    }
  }

  // ---------------------------------------------------------------- collecting empty tables

  /** What collecting under a level-`n` table may change: tables below that level disappear, nothing above it
      is touched, and no translation changes. */
  ghost predicate Shrank(s: State, s': State, n: nat) {
    && s'.t.Keys <= s.t.Keys
    && (forall b :: b in s'.t ==> b in s.place && b in s'.place && s'.place[b] == s.place[b])
    && (forall b :: b in s.t && b in s.place && s.place[b].level >= n ==> b in s'.t)
    && (forall b :: b in s.t && b in s.place && s.place[b].level > n ==> s'.t[b] == s.t[b])
    && (forall b, m: nat, vp: nat :: b in s'.t ==> Walk(s'.t, b, m, vp) == Walk(s.t, b, m, vp))
    && (forall b, m: nat, vp: nat :: b in s'.t && Blocked(s'.t, b, m, vp, false) ==> Blocked(s.t, b, m, vp, false))
    && (forall a, k: nat, vp: nat, b, m: nat :: a in s'.t && b in s'.t ==>
      LeadsTo(s'.t, a, k, vp, b, m) == LeadsTo(s.t, a, k, vp, b, m))
    && s.frames <= s'.frames <= s.frames + (s.t.Keys - s'.t.Keys)
  }

  lemma ShrankRefl(s: State, n: nat)
    requires SoundState(s)
    ensures Shrank(s, s, n)
  {
  }

  /** The child has been collected and turned out empty: it is unlinked and its frame goes back, or is lost. */
  lemma PruneShrank(s: State, u: State, a: nat, i: nat, c: nat, n: nat, freed: bool)
    requires n > 0 && SoundState(s) && SoundState(u) && Shrank(s, u, n - 1)
    requires a in s.t && s.place[a].level == n && i < ENTRIES && s.t[a][i] == Table(c)
    requires c in u.t && NoDescriptor(u.t, c)
    ensures var v := State(Pruned(u.t, a, i, c), u.place - {c}, if freed then u.frames + {c} else u.frames);
      Shrank(s, v, n) && SoundState(v)
  {
    hide Based, Child, Index, Walk, Blocked, LeadsTo;
    assert SlotOk(s.t, s.place, a, i);
    PrunedShaped(u.t, u.place, a, i, c);
    forall b, m: nat, vp: nat | b in u.t && b != c && Blocked(Pruned(u.t, a, i, c), b, m, vp, false)
      ensures Blocked(u.t, b, m, vp, false)
    {
      PrunedBlocks(u.t, u.place, a, i, c, b, m, vp);
    }
    forall b, m: nat, vp: nat | b in u.t && b != c
      ensures Walk(Pruned(u.t, a, i, c), b, m, vp) == Walk(u.t, b, m, vp)
    {
      PrunedWalk(u.t, u.place, a, i, c, b, m, vp);
    }
    forall x, k: nat, vp: nat, b, m: nat | x != c && b != c
      ensures LeadsTo(Pruned(u.t, a, i, c), x, k, vp, b, m) == LeadsTo(u.t, x, k, vp, b, m)
    {
      if LeadsTo(u.t, x, k, vp, b, m) { PrunedLeads(u.t, u.place, a, i, c, x, k, vp, b, m); }
      if LeadsTo(Pruned(u.t, a, i, c), x, k, vp, b, m) { PrunedLeadsBack(u.t, a, i, c, x, k, vp, b, m); }
    }
  }

  /** The tables that were taken out hung below `a`. */
  ghost predicate GoneHung(s: State, s': State, a: nat) {
    forall b :: b in s.t && b !in s'.t ==> Hangs(s.t, s.place, a, b)
  }

  lemma ShrankLost(s: State, s': State, n: nat, root: nat)
    requires SoundState(s) && SoundState(s') && Shrank(s, s', n) && GoneHung(s, s', root) && root in s'.t
    ensures Lost(s'.t, s'.place, root) == Lost(s.t, s.place, root)
  {
    hide LeadsTo, Covers, Walk, Blocked;
    forall b | b in s'.t ensures Hangs(s'.t, s'.place, root, b) <==> Hangs(s.t, s.place, root, b) {
      var n, m, vp := s.place[root].level, s.place[b].level, s.place[b].base;
      assert LeadsTo(s'.t, root, n, vp, b, m) <==> LeadsTo(s.t, root, n, vp, b, m);
    }
  }

  /** What is gone below the child is gone below `a`. */
  lemma GoneUp(s: State, s': State, a: nat, i: nat)
    requires SoundState(s) && a in s.t && i < ENTRIES && |s.t[a]| == ENTRIES && s.t[a][i].Table? &&
      GoneHung(s, s', s.t[a][i].addr)
    ensures GoneHung(s, s', a)
  {
    hide Hangs;
    forall b | b in s.t && b !in s'.t ensures Hangs(s.t, s.place, a, b) { HangsUp(s.t, s.place, a, i, b); }
  }

  lemma GoneToo(s: State, u: State, v: State, c: nat)
    requires SoundState(s) && c in s.t && GoneHung(s, u, c) && v.t.Keys == u.t.Keys - {c}
    ensures GoneHung(s, v, c)
  {
    hide LeadsTo, Covers;
    SelfHangs(s.t, s.place, c);
  }

  /** Only tables on the path of `vp` under `a`, besides `a` and the root, may lack a descriptor. */
  ghost predicate UnusedOnPath(t: Tables, root: nat, a: nat, n: nat, vp: nat) {
    forall b :: b in t && b != root && b != a && NoDescriptor(t, b) ==> OnPath(t, a, n, vp, b)
  }

  /** No table below `a` on the path of `vp` is without a descriptor. */
  ghost predicate PathUsed(t: Tables, a: nat, n: nat, vp: nat) {
    forall b :: b in t && OnPath(t, a, n, vp, b) ==> !NoDescriptor(t, b)
  }

  /** The path below `a` ends at its slot, or goes through a child that has a descriptor. */
  lemma PathUsedStep(t: Tables, a: nat, n: nat, vp: nat)
    requires a in t && |t[a]| == ENTRIES
    ensures n == 0 || !t[a][Index(vp, n)].Table? ==> PathUsed(t, a, n, vp)
    ensures n > 0 && t[a][Index(vp, n)].Table? ==> var c := t[a][Index(vp, n)].addr;
      c in t && !NoDescriptor(t, c) && PathUsed(t, c, n - 1, vp) ==> PathUsed(t, a, n, vp)
  {
    hide Index, NoDescriptor;
  }

  /** Every table but the root and `a` has a descriptor. */
  ghost predicate UsedBut(t: Tables, root: nat, a: nat) {
    forall b :: b in t && b != root && b != a ==> !NoDescriptor(t, b)
  }

  lemma PrunedUsed(t: Tables, root: nat, a: nat, i: nat, c: nat)
    requires a in t && i < |t[a]| && UsedBut(t, root, c)
    ensures UsedBut(Pruned(t, a, i, c), root, a)
  {
    var t' := Pruned(t, a, i, c);
    forall b | b in t' && b != root && b != a ensures !NoDescriptor(t', b) {
      assert t'[b] == t[b];
    }
  }

  /** The path below `a` is its child and the path below the child. */
  lemma PathStep(t: Tables, root: nat, a: nat, n: nat, vp: nat)
    requires a in t && |t[a]| == ENTRIES && UnusedOnPath(t, root, a, n, vp)
    ensures n == 0 || !t[a][Index(vp, n)].Table? ==> UsedBut(t, root, a)
    ensures n > 0 && t[a][Index(vp, n)].Table? ==> UnusedOnPath(t, root, t[a][Index(vp, n)].addr, n - 1, vp)
  {
    hide Index;
  }

  lemma NotItself(t: Tables, place: map<nat, Place>, a: nat, i: nat)
    requires Shaped(t, place) && a in t && i < ENTRIES && t[a][i].Table?
    ensures t[a][i].addr != a
  {
    hide Child, Based;
    assert SlotOk(t, place, a, i);
  }

  lemma KeysOf(s: State, s': State, n: nat)
    requires n > 0 && Shrank(s, s', n - 1)
    ensures s'.t.Keys <= s.t.Keys
  {
    hide Walk, Blocked, LeadsTo;
  }

  lemma UsedSlot(t: Tables, a: nat, i: nat)
    requires a in t && i < |t[a]| && !t[a][i].Invalid?
    ensures !NoDescriptor(t, a)
  {
  }

  /** A child that stayed keeps its parent in use. */
  lemma StillUsed(t: Tables, root: nat, a: nat, c: nat, i: nat)
    requires a in t && c in t && i < |t[a]| && t[a][i].Table? && !NoDescriptor(t, c)
    ensures !NoDescriptor(t, a) && (UsedBut(t, root, c) ==> UsedBut(t, root, a))
  {
  }

  lemma KeptWhole(s: State, s': State, a: nat, n: nat)
    requires n > 0 && Shrank(s, s', n - 1) && a in s.t && a in s.place && s.place[a].level == n
    ensures a in s'.t && s'.t[a] == s.t[a] && Shrank(s, s', n)
  {
    hide Walk, Blocked, LeadsTo;
  }

  /** Where a frame can be: a table, free, or spent. */
  datatype Holdings = Holdings(tables: set<nat>, free: set<nat>, spent: set<nat>)

  /** No frame appears or vanishes, and a frame that is spent stays spent. */
  ghost predicate Accounted(h: Holdings, h': Holdings) {
    && h'.tables + h'.free + h'.spent == h.tables + h.free + h.spent
    && h.spent <= h'.spent
    && (h.spent !! h.free && h.spent !! h.tables ==> h'.spent !! h'.free && h'.spent !! h'.tables)
  }

  lemma AccountedRefl(h: Holdings)
    ensures Accounted(h, h)
  {
  }

  lemma SpentApart(h: Holdings, h': Holdings)
    requires Accounted(h, h') && h.spent !! h.tables && h.spent !! h.free
    ensures h'.spent !! h'.tables && h'.spent !! h'.free
  {
  }

  lemma AccountedTrans(h: Holdings, u: Holdings, v: Holdings)
    requires Accounted(h, u) && Accounted(u, v)
    ensures Accounted(h, v)
  {
  }

  /** Counting lost tables as spent. */
  lemma AccountedLost(h: Holdings, h': Holdings, lost: set<nat>, lost': set<nat>)
    requires Accounted(h, h') && h.tables !! h.free && h'.tables !! h'.free && h.spent !! h.tables && h.spent !! h.free
    requires lost <= h.tables && lost' <= h'.tables && lost <= lost'
    ensures Accounted(Holdings(h.tables - lost, h.free, h.spent + lost),
                      Holdings(h'.tables - lost', h'.free, h'.spent + lost'))
  {
  }

  lemma AccountedPrune(h: Holdings, u: Holdings, c: nat, freed: bool)
    requires Accounted(h, u) && c in u.tables && u.free !! u.tables
    ensures Accounted(h, Holdings(u.tables - {c}, if freed then u.free + {c} else u.free,
                                  if freed then u.spent else u.spent + {c}))
  {
  }

  /** The scan for a valid descriptor. */
  method IsUnused(table: seq<Slot>) returns (unused: bool)
    ensures unused <==> forall i :: 0 <= i < |table| ==> table[i].Invalid?
  {
    for i := 0 to |table|
      invariant forall j :: 0 <= j < i ==> table[j].Invalid?
    {
      if !table[i].Invalid? {
        return false;
      }
    }
    return true;
  }

  class PageManager {
    var tables: Tables
    /** The page frames that the physical memory manager can still hand out. */
    var frames: set<nat>
    const root: nat
    const top: nat
    /** The physical memory manager takes back every frame that it is given. */
    const accepts: bool
    ghost var place: map<nat, Place>
    /** Frames that the physical memory manager refused to take back, or that were forgotten after such a refusal. */
    ghost var spent: set<nat>

    ghost function Held(): Holdings
      reads this
    {
      Holdings(tables.Keys, frames, spent)
    }

    ghost predicate Sound()
      reads this
    {
      SoundState(Now())
    }

    ghost predicate Valid()
      reads this
    {
      && Sound() && root in tables && root in place && place[root].level == top && place[root].base == 0
      && spent !! tables.Keys && spent !! frames
    }

    /** The tables that no walk comes to. */
    ghost function LostTables(): set<nat>
      reads this
    {
      Lost(tables, place, root)
    }

    /** Where the frames are if only tables that a walk comes to are held. */
    ghost function Books(): Holdings
      reads this
    {
      Holdings(tables.Keys - LostTables(), frames, spent + LostTables())
    }

    /** init_user: an empty root of level `levels`, in the frame `table`, and the frames that are left. */
    constructor (table: nat, levels: nat, free: set<nat>, takesBack: bool)
      requires table !in free
      ensures Valid() && root == table && top == levels && accepts == takesBack && frames == free &&
        tables == map[table := EMPTY] && spent == {} && LostTables() == {}
      ensures forall vp: nat :: Covers(0, top, vp) ==> Translate(vp) == None
    {
      root, top, accepts, frames, spent := table, levels, takesBack, free, {};
      tables := map[table := EMPTY];
      place := map[table := Place(levels, 0, table)];
      new;
      MultipleBased(0, levels);
      SelfHangs(tables, place, root);
    }

    /** The translation of the whole address space. */
    function Translate(vp: nat): Option<Mapping>
      reads this
    {
      Walk(tables, root, top, vp)
    }

    ghost function Now(): State
      reads this
    {
      State(tables, place, frames)
    }

    /** alloc_page_table, and the loop that clears the new table. The physical memory manager keeps its last page. */
    method AllocPageTable(ghost p: Place) returns (r: Result<nat>)
      requires Sound() && Based(p.base, p.level)
      modifies this`tables, this`frames, this`place
      ensures Sound()
      ensures r.Err? <==> |old(frames)| <= 1
      ensures r.Err? ==>
        r.error.MemoryCacheRanOut? && frames == old(frames) && tables == old(tables) && place == old(place)
      ensures r.Ok? ==>
        && r.value in old(frames) && frames == old(frames) - {r.value}
        && tables == old(tables)[r.value := EMPTY] && place == old(place)[r.value := p]
    {
      hide Based;
      if |frames| <= 1 {
        return Err(MemoryCacheRanOut);
      }
      assert frames != {};
      var f :| f in frames;
      frames := frames - {f};
      tables := tables[f := EMPTY];
      place := place[f := p];
      assert forall a, i :: a in tables && 0 <= i < |tables[a]| ==> SlotOk(tables, place, a, i) by {
        forall a, i | a in tables && 0 <= i < |tables[a]| ensures SlotOk(tables, place, a, i) {
          if a != f { assert SlotOk(old(tables), old(place), a, i); }
        }
      }
      return Ok(f);
    }
  
    /** Every table but the root has a valid descriptor. */
    ghost predicate InUse()
      reads this
    {
      forall a :: a in tables && a != root ==> HasDescriptor(tables, a)
    }

    /** Two states translate every page alike. */
    ghost predicate SameTranslation(t: Tables)
      reads this
    {
      forall vp: nat :: Covers(0, top, vp) ==> Translate(vp) == Walk(t, root, top, vp)
    }

    /** No page has a block descriptor on its path that it did not have in `t`. */
    ghost predicate NoNewBlocks(t: Tables)
      reads this
    {
      forall vp: nat :: Covers(0, top, vp) && Blocked(tables, root, top, vp, false) ==> Blocked(t, root, top, vp, false)
    }

    lemma GrewTranslation(s: State)
      requires SoundState(s) && root in s.t && Grew(s, Now(), top)
      ensures SameTranslation(s.t)
    {
      hide Covers;
      forall vp: nat | Covers(0, top, vp) ensures Translate(vp) == Walk(s.t, root, top, vp) {
        GrownWalk(s.t, tables, root, top, vp);
      }
    }

    lemma GrewBlocks(s: State)
      requires SoundState(s) && root in s.t && Grew(s, Now(), top)
      ensures NoNewBlocks(s.t)
    {
      hide Covers, Blocked;
      forall vp: nat | Covers(0, top, vp) && Blocked(tables, root, top, vp, false)
        ensures Blocked(s.t, root, top, vp, false) {
        GrownBlocks(s.t, tables, root, top, vp);
      }
    }

    lemma PutBlocks(t: Tables, b: nat, i: nat, s: Slot)
      requires Shaped(t, place) && root in t && place[root].level == top && place[root].base == 0
      requires b in t && i < |t[b]| && place[b].level == 0
      ensures forall vp: nat :: Covers(0, top, vp) && Blocked(Put(t, b, i, s), root, top, vp, false) ==>
        Blocked(t, root, top, vp, false)
    {
      hide Blocked, Shaped, Covers;
      forall vp: nat | Covers(0, top, vp) && Blocked(Put(t, b, i, s), root, top, vp, false)
        ensures Blocked(t, root, top, vp, false)
      {
        PageBlocks(t, Put(t, b, i, s), place, root, vp);
      }
    }

    /** associate_address: one page, through its level-3 descriptor. */
    method AssociateAddress(physical: nat, virtual: nat, attr: Attr) returns (err: Option<PagingError>)
      requires Valid() && Covers(0, top, virtual / PAGE)
      modifies this`tables, this`frames, this`place
      ensures Valid() && tables.Keys + frames == old(tables.Keys + frames) && LostTables() == old(LostTables())
      ensures err == Some(AddressIsNotAligned) <==> physical % PAGE != 0 || virtual % PAGE != 0
      ensures err.Some? ==> SameTranslation(old(tables))
      ensures err == Some(EntryIsNotFound) <==>
        physical % PAGE == 0 && virtual % PAGE == 0 && Blocked(old(tables), root, top, virtual / PAGE, false)
      ensures err.Some? ==>
        err.value.AddressIsNotAligned? || err.value.EntryIsNotFound? || (err.value.MemoryCacheRanOut? && |frames| <= 1)
      ensures err == Some(MemoryCacheRanOut) <==>
        && physical % PAGE == 0 && virtual % PAGE == 0 && 0 < Missing(old(tables), root, top, virtual / PAGE)
        && |old(frames)| <= Missing(old(tables), root, top, virtual / PAGE)
      ensures |frames| + top >= |old(frames)|
      ensures err == None ==> |frames| + Missing(old(tables), root, top, virtual / PAGE) == |old(frames)|
      ensures err == None ==> forall vp: nat :: Covers(0, top, vp) ==>
        Translate(vp) == if vp == virtual / PAGE then Some(Mapping(physical / PAGE, attr)) else old(Translate(vp))
      ensures err == None && old(InUse()) ==> InUse()
      ensures NoNewBlocks(old(tables)) && (err == None ==> !Blocked(tables, root, top, virtual / PAGE, true))
    {
      hide Index, Child, Based, Covers, Span, Grew, Shaped, HasDescriptor, Blocked, Walk, Reaches, Grown, NewInUse,
        Lost, NewHangs, Missing;
      if physical % PAGE != 0 || virtual % PAGE != 0 {
        return Some(AddressIsNotAligned);
      }
      var vp := virtual / PAGE;
      Lengths(tables, place);
      var r := GetLevel3Table(root, top, vp, true);
      KeptRoot(old(Now()), Now(), root, top);
      GrewLost(old(Now()), Now(), top, root);
      GrewTranslation(old(Now()));
      GrewBlocks(old(Now()));
      if r.Err? {
        return Some(r.error);
      }
      WritePage(vp, r.value, Leaf(physical / PAGE, attr), old(tables));
      return None;
    }

    /** The page descriptor of `vp` in the level-0 table `b`. */
    method WritePage(vp: nat, b: nat, leaf: Slot, ghost before: Tables)
      requires Valid() && Covers(0, top, vp) && Reaches(tables, root, top, vp, b) && leaf.Leaf?
      requires Grown(before, tables) && NewInUse(before, tables, b) && forall a :: a in before ==>
        |before[a]| == ENTRIES
      modifies this`tables
      ensures Valid() && tables.Keys == old(tables.Keys) && LostTables() == old(LostTables())
      ensures forall vq: nat :: Covers(0, top, vq) ==>
        Translate(vq) == if vq == vp then Some(Mapping(leaf.frame, leaf.attr)) else old(Translate(vq))
      ensures (forall a :: a in before && a != root ==> HasDescriptor(before, a)) ==> InUse()
      ensures NoNewBlocks(old(tables)) && !Blocked(tables, root, top, vp, true)
    {
      hide Index, Child, Based, Covers, Span, Shaped, HasDescriptor, Blocked, Grown, NewInUse, Lost;
      ReachedPlace(tables, place, root, vp, b);
      TableFacts(tables, place, b);
      PageSlot(tables, place, b, Index(vp, 0));
      PutLost(tables, place, root, b, Index(vp, 0), leaf);
      ghost var t := tables;
      PutShaped(t, place, b, Index(vp, 0), leaf);
      PutBlocks(t, b, Index(vp, 0), leaf);
      ReachesPut(t, place, root, vp, b, Index(vp, 0), leaf);
      ReachedNotBlocked(Put(t, b, Index(vp, 0), leaf), root, top, vp, b);
      if forall a :: a in before && a != root ==> HasDescriptor(before, a) {
        PutInUse(before, t, root, b, Index(vp, 0), leaf);
      }
      tables := Put(tables, b, Index(vp, 0), leaf);
      forall vq: nat | Covers(0, top, vq)
        ensures Translate(vq) == if vq == vp then Some(Mapping(leaf.frame, leaf.attr)) else Walk(t, root, top, vq)
      {
        PutPageWalk(t, place, root, vp, b, leaf, vq);
      }
    }

    /** _cleanup_page_tables: collect the empty tables on the path of `vp` below `a`; true if `a` is empty then. */
    method CleanupPageTables(a: nat, n: nat, vp: nat) returns (r: Result<bool>)
      requires Sound() && root in place && n <= place[root].level && a in tables && place[a].level == n &&
        At(place, a, vp)
      modifies this`tables, this`frames, this`place, this`spent
      ensures Sound() && Shrank(old(Now()), Now(), n) && a in tables && GoneHung(old(Now()), Now(), a)
      ensures Accounted(old(Held()), Held())
      ensures r.Ok? ==> spent == old(spent)
      ensures r.Ok? ==> frames == old(frames) + (old(tables.Keys) - tables.Keys)
      ensures r.Err? ==> r.error.MemoryCacheOverflowed? && !accepts
      ensures r.Ok? ==> (r.value <==> NoDescriptor(tables, a)) && PathUsed(tables, a, n, vp)
      ensures r.Ok? && old(UnusedOnPath(tables, root, a, n, vp)) ==> UsedBut(tables, root, a)
      decreases n
    {
      hide Index, Child, Based, Covers, Span, Shrank, Shaped, OnPath, Accounted, UsedBut, UnusedOnPath, NoDescriptor,
        Hangs, PathUsed;
      ShrankRefl(Now(), n);
      AccountedRefl(Held());
      TableFacts(tables, place, a);
      if UnusedOnPath(tables, root, a, n, vp) { PathStep(tables, root, a, n, vp); }
      if n == 0 {
        PathUsedStep(tables, a, n, vp);
        var unused := TableIsUnused(a);
        return Ok(unused);
      }
      var index := Index(vp, n);
      if tables[a][index].Table? {
        var next := tables[a][index].addr;
        ChildAt(tables, place, a, vp);
        r := CleanupPageTables(next, n - 1, vp);
        KeptWhole(old(Now()), Now(), a, n);
        ghost var u := Now();
        GoneUp(old(Now()), u, a, index);
        if r.Err? {
          return;
        } else if !r.value {
          StillUsed(tables, root, a, next, index);
          PathUsedStep(tables, a, n, vp);
          return;
        }
        var freed := PruneChild(a, index, next, n, old(Now()), old(Held()));
        GoneToo(old(Now()), u, Now(), next);
        GoneUp(old(Now()), Now(), a, index);
        if !freed {
          return Err(MemoryCacheOverflowed);
        }
      }
      PathUsedStep(tables, a, n, vp);
      if !tables[a][index].Invalid? {
        UsedSlot(tables, a, index);
        return Ok(false);
      }
      var unused := TableIsUnused(a);
      return Ok(unused);
    }

    method TableIsUnused(a: nat) returns (unused: bool)
      requires a in tables
      ensures unused <==> NoDescriptor(tables, a)
    {
      unused := IsUnused(tables[a]);
    }

    /** The empty table `next` is unlinked from slot `index` of `a` and its frame given back. */
    method PruneChild(a: nat, index: nat, next: nat, ghost n: nat, ghost s: State, ghost h: Holdings)
      returns (freed: bool)
      requires n > 0 && SoundState(s) && Sound() && Shrank(s, Now(), n - 1) && Accounted(h, Held())
      requires a in s.t && s.place[a].level == n && index < ENTRIES && s.t[a][index] == Table(next)
      requires a in tables && tables[a] == s.t[a] && next in tables && NoDescriptor(tables, next)
      requires frames == s.frames + (s.t.Keys - tables.Keys)
      modifies this`tables, this`frames, this`place, this`spent
      ensures Sound() && Shrank(s, Now(), n) && Accounted(h, Held())
      ensures a in tables && tables[a] == old(tables[a])[index := Invalid] && tables.Keys == old(tables.Keys) - {next}
      ensures accepts ==> freed
      ensures freed ==> spent == old(spent) && frames == s.frames + (s.t.Keys - tables.Keys)
      ensures old(UsedBut(tables, root, next)) ==> UsedBut(tables, root, a)
    {
      hide Index, Child, Based, Covers, Span, Shrank, Shaped, OnPath, Accounted, UsedBut, NoDescriptor;
      freed := *;
      freed := freed || accepts;
      TableFacts(tables, place, a);
      NotItself(s.t, s.place, a, index);
      PruneShrank(s, Now(), a, index, next, n, freed);
      AccountedPrune(h, Held(), next, freed);
      if UsedBut(tables, root, next) { PrunedUsed(tables, root, a, index, next); }
      KeysOf(s, Now(), n);
      assert Pruned(tables, a, index, next).Keys == tables.Keys - {next};
      tables := Pruned(tables, a, index, next);
      place := place - {next};
      if freed {
        frames := frames + {next};
      } else {
        spent := spent + {next};
      }
    }

    /** cleanup_page_table: collect from the root; an empty root is reported as an error. */
    method CleanupPageTable(vp: nat) returns (err: Option<PagingError>)
      requires Valid() && Covers(0, top, vp)
      modifies this`tables, this`frames, this`place, this`spent
      ensures Valid() && SameTranslation(old(tables)) && tables.Keys <= old(tables.Keys) &&
        LostTables() == old(LostTables())
      ensures old(frames) <= frames
      ensures Accounted(old(Held()), Held())
      ensures err != Some(MemoryCacheOverflowed) ==> spent == old(spent)
      ensures NoNewBlocks(old(tables))
      ensures err != Some(MemoryCacheOverflowed) ==> frames == old(frames) + (old(tables.Keys) - tables.Keys)
      ensures err.Some? ==> (err.value.MemoryCacheOverflowed? && !accepts) || err.value.InvalidPageTable?
      ensures err == Some(InvalidPageTable) ==> NoDescriptor(tables, root)
      ensures err == None ==> !NoDescriptor(tables, root)
      ensures err != Some(MemoryCacheOverflowed) ==> PathUsed(tables, root, top, vp)
      ensures err != Some(MemoryCacheOverflowed) && old(UnusedOnPath(tables, root, root, top, vp)) ==> InUse()
    {
      hide Index, Child, Based, Covers, Span, Shaped, OnPath, Walk, Blocked, Accounted, Lost, LeadsTo, PathUsed;
      var r := CleanupPageTables(root, top, vp);
      ShrankLost(old(Now()), Now(), top, root);
      SpentApart(old(Held()), Held());
      if r.Err? {
        return Some(r.error);
      }
      return if r.value then Some(InvalidPageTable) else None;
    }

    /** unassociate_address: invalidate the page's descriptor, then collect. */
    method UnassociateAddress(virtual: nat, entryMayBeDeleted: bool) returns (err: Option<PagingError>)
      requires Valid() && Covers(0, top, virtual / PAGE)
      modifies this`tables, this`frames, this`place, this`spent
      ensures Valid() && tables.Keys <= old(tables.Keys) && LostTables() == old(LostTables()) && old(frames) <= frames
      ensures Accounted(old(Held()), Held())
      ensures err != Some(MemoryCacheOverflowed) ==> spent == old(spent)
      ensures NoNewBlocks(old(tables))
      ensures forall vp: nat :: Covers(0, top, vp) ==>
        Translate(vp) == if vp == virtual / PAGE && !Blocked(old(tables), root, top, vp, true) then None
          else old(Translate(vp))
      ensures err == Some(EntryIsNotFound) <==>
        !entryMayBeDeleted && Blocked(old(tables), root, top, virtual / PAGE, true)
      ensures err == Some(EntryIsNotFound) ==> Now() == old(Now())
      ensures err == None ==> !NoDescriptor(tables, root)
      ensures err == Some(InvalidPageTable) ==> NoDescriptor(tables, root)
      ensures err != Some(MemoryCacheOverflowed) ==> frames == old(frames) + (old(tables.Keys) - tables.Keys)
      ensures err.Some? ==>
        (err.value.MemoryCacheOverflowed? && !accepts) || err.value.InvalidPageTable? || err.value.EntryIsNotFound?
      ensures err != Some(MemoryCacheOverflowed) && old(InUse()) ==> InUse()
      ensures err == None || err == Some(InvalidPageTable) ==> PathUsed(tables, root, top, virtual / PAGE)
    {
      hide Index, Child, Based, Covers, Span, Grew, Shaped, Walk, Blocked, Reaches, Accounted, NoDescriptor,
        UnusedOnPath, HasDescriptor, NewInUse, Lost, NewHangs, Missing, PathUsed;
      var vp := virtual / PAGE;
      AccountedRefl(Held());
      if InUse() { InUseOnPath(tables, root, vp, top); }
      var r := GetLevel3Table(root, top, vp, false);
      match r {
        case Ok(b) =>
          InvalidatePage(vp, b);
          err := CleanupPageTable(vp);
        case Err(e) =>
          if e == EntryIsNotFound && entryMayBeDeleted {
            err := CleanupPageTable(vp);
          } else {
            err := Some(e);
          }
      }
    }

    /** The descriptor of `vp` in the level-0 table `b` becomes invalid. */
    method InvalidatePage(vp: nat, b: nat)
      requires Valid() && Covers(0, top, vp) && Reaches(tables, root, top, vp, b)
      modifies this`tables
      ensures Valid() && tables.Keys == old(tables.Keys) && LostTables() == old(LostTables())
      ensures forall vq: nat :: Covers(0, top, vq) ==> Translate(vq) == if vq == vp then None else old(Translate(vq))
      ensures old(InUse()) ==> UnusedOnPath(tables, root, root, top, vp)
      ensures !Blocked(old(tables), root, top, vp, true)
      ensures NoNewBlocks(old(tables))
    {
      hide Index, Child, Based, Covers, Span, Shaped, Blocked, Lost;
      ReachedPlace(tables, place, root, vp, b);
      TableFacts(tables, place, b);
      PageSlot(tables, place, b, Index(vp, 0));
      PutLost(tables, place, root, b, Index(vp, 0), Invalid);
      PutShaped(tables, place, b, Index(vp, 0), Invalid);
      ghost var t := tables;
      tables := Put(tables, b, Index(vp, 0), Invalid);
      forall vq: nat | Covers(0, top, vq)
        ensures Translate(vq) == if vq == vp then None else Walk(t, root, top, vq)
      {
        PutPageWalk(t, place, root, vp, b, Invalid, vq);
      }
      ReachesPut(t, place, root, vp, b, Index(vp, 0), Invalid);
      ReachedOnPath(tables, root, top, vp, b);
      ReachedNotBlocked(t, root, top, vp, b);
      PutBlocks(t, b, Index(vp, 0), Invalid);
    }

    /** _get_target_level3_descriptor: the level-0 table that holds the page's descriptor, made if asked. */
    method GetLevel3Table(a: nat, n: nat, vp: nat, create: bool) returns (r: Result<nat>)
      requires Sound() && a in tables && place[a].level == n && At(place, a, vp)
      modifies this`tables, this`frames, this`place
      ensures Sound() && Grew(old(Now()), Now(), n)
      ensures !create ==> Now() == old(Now())
      ensures r == Err(EntryIsNotFound) <==> Blocked(old(tables), a, n, vp, !create)
      ensures r.Err? ==> r.error.EntryIsNotFound? || (create && n > 0 && r.error.MemoryCacheRanOut? && |frames| <= 1)
      ensures r == Err(MemoryCacheRanOut) <==>
        create && 0 < Missing(old(tables), a, n, vp) && |old(frames)| <= Missing(old(tables), a, n, vp)
      ensures |frames| + Missing(old(tables), a, n, vp) >= |old(frames)| && NewHangs(old(Now()), Now(), a)
      ensures create && r.Ok? ==> |frames| + Missing(old(tables), a, n, vp) == |old(frames)|
      ensures r.Ok? ==> Reaches(tables, a, n, vp, r.value) && NewInUse(old(tables), tables, r.value)
      decreases n, 2
    {
      hide Index, Child, Based, Covers, Span, Grew, HasDescriptor, Grown, Shaped, At;
      TableFacts(tables, place, a);
      KeysAre(tables, place);
      if n == 0 {
        GrewRefl(Now(), 0);
        return Ok(a);
      }
      var index := Index(vp, n);
      if !tables[a][index].Table? {
        if tables[a][index].Leaf? || !create {
          GrewRefl(Now(), n);
          return Err(EntryIsNotFound);
        }
        r := MakeLevel3Table(a, n, vp);
      } else {
        ChildAt(tables, place, a, vp);
        r := GetLevel3Table(tables[a][index].addr, n - 1, vp, create);
        KeptAbove(old(Now()), Now(), a, n);
        GrewUp(old(Now()), Now(), n - 1);
        NewHangsUp(old(Now()), Now(), a, index);
      }
    }

    /** The branch that makes a table, fills it and only then links it. */
    method MakeLevel3Table(a: nat, n: nat, vp: nat) returns (r: Result<nat>)
      requires Sound() && a in tables && place[a].level == n > 0 && At(place, a, vp) && tables[a][Index(vp, n)].Invalid?
      modifies this`tables, this`frames, this`place
      ensures Sound() && Grew(old(Now()), Now(), n)
      ensures r.Err? ==> r.error.MemoryCacheRanOut? && |frames| <= 1
      ensures (r.Err? <==> |old(frames)| <= n) && |frames| + n >= |old(frames)| && NewHangs(old(Now()), Now(), a)
      ensures r.Ok? ==> |frames| + n == |old(frames)|
      ensures r.Ok? ==> Reaches(tables, a, n, vp, r.value) && NewInUse(old(tables), tables, r.value)
      decreases n, 1
    {
      hide Index, Child, Based, Covers, Span, Grew, Shaped, HasDescriptor, Blocked, NewInUse, EMPTY, Reaches, Missing;
      r := AllocChild(a, n, vp);
      if r.Err? {
        GrewRefl(Now(), n);
        return;
      }
      r := FillChild(a, n, vp, r.value, old(Now()));
    }

    /** The path is made below the new table, which is then linked. */
    method FillChild(a: nat, n: nat, vp: nat, newTable: nat, ghost s: State) returns (r: Result<nat>)
      requires SoundState(s) && a in s.t && s.place[a].level == n > 0 && |s.t[a]| == ENTRIES &&
        s.t[a][Index(vp, n)].Invalid?
      requires Sound() && Grew(s, Now(), n) && newTable !in s.t && tables.Keys == s.t.Keys + {newTable}
      requires a in tables && tables[a] == s.t[a] && a in place && place[a] == s.place[a] && At(place, a, vp)
      requires place[newTable] == Place(n - 1, Child(place[a].base, n, Index(vp, n)), a) && At(place, newTable, vp)
      requires !Blocked(tables, newTable, n - 1, vp, false) && Missing(tables, newTable, n - 1, vp) == n - 1
      modifies this`tables, this`frames, this`place
      ensures Sound() && Grew(s, Now(), n)
      ensures r.Err? ==> r.error.MemoryCacheRanOut? && |frames| <= 1
      ensures (r.Err? <==> n > 1 && |old(frames)| <= n - 1) && |frames| + n - 1 >= |old(frames)| &&
        NewHangs(s, Now(), a)
      ensures r.Ok? ==> |frames| + n - 1 == |old(frames)|
      ensures r.Ok? ==> Reaches(tables, a, n, vp, r.value) && NewInUse(s.t, tables, r.value)
      decreases n, 0
    {
      hide Index, Child, Based, Covers, Span, Grew, Shaped, HasDescriptor, Blocked, NewInUse, EMPTY, Reaches, Missing;
      ghost var s1 := Now();
      r := GetLevel3Table(newTable, n - 1, vp, true);
      Linked(s, s1, Now(), a, n, vp, newTable, r);
      tables := Put(tables, a, Index(vp, n), Table(newTable));
    }

    /** A new empty table for the slot of `vp` in `a`, not linked yet. */
    method AllocChild(a: nat, n: nat, vp: nat) returns (r: Result<nat>)
      requires Sound() && a in tables && place[a].level == n > 0 && At(place, a, vp) && tables[a][Index(vp, n)].Invalid?
      modifies this`tables, this`frames, this`place
      ensures Sound() && |frames| + 1 >= |old(frames)|
      ensures (r.Err? <==> |old(frames)| <= 1) && (r.Err? ==> r.error.MemoryCacheRanOut? && Now() == old(Now()))
      ensures r.Ok? ==>
        && Grew(old(Now()), Now(), n) && r.value !in old(tables) && tables.Keys == old(tables.Keys) + {r.value}
        && |frames| + 1 == |old(frames)|
        && tables[a] == old(tables[a]) && |tables[a]| == ENTRIES && a in place && place[a] == old(place[a])
        && r.value in place && place[r.value] == Place(n - 1, Child(place[a].base, n, Index(vp, n)), a)
        && At(place, r.value, vp)
        && !Blocked(tables, r.value, n - 1, vp, false) && Missing(tables, r.value, n - 1, vp) == n - 1
    {
      hide Index, Child, Based, Covers, Span, Grew, Shaped, Blocked, EMPTY, Missing;
      TableFacts(tables, place, a);
      ghost var base := place[a].base;
      ChildBased(base, n, Index(vp, n));
      r := AllocPageTable(Place(n - 1, Child(base, n, Index(vp, n)), a));
      if r.Ok? {
        SlotCovers(base, n, vp);
        AllocGrew(old(Now()), r.value, Place(n - 1, Child(base, n, Index(vp, n)), a));
        EmptyNotBlocked(tables, r.value, n - 1, vp);
        MissingInNew(tables, r.value, n - 1, vp);
      }
    }
  }

  /** The new table `f`, made in `s1` and filled in `u`, is linked. */
  lemma Linked(s: State, s1: State, u: State, a: nat, n: nat, vp: nat, f: nat, r: Result<nat>)
    requires SoundState(s) && a in s.t && s.place[a].level == n > 0 && |s.t[a]| == ENTRIES &&
      s.t[a][Index(vp, n)].Invalid?
    requires SoundState(s1) && Grew(s, s1, n) && f !in s.t && s1.t.Keys == s.t.Keys + {f} && a in s1.t &&
      s1.t[a] == s.t[a]
    requires a in s1.place && s1.place[a] == s.place[a] && At(s1.place, a, vp)
    requires s1.place[f] == Place(n - 1, Child(s.place[a].base, n, Index(vp, n)), a) && At(s1.place, f, vp)
    requires SoundState(u) && Grew(s1, u, n - 1) && NewHangs(s1, u, f)
    requires r.Ok? ==> Reaches(u.t, f, n - 1, vp, r.value) && NewInUse(s1.t, u.t, r.value)
    ensures a in u.t && |u.t[a]| == ENTRIES
    ensures var v := u.(t := Put(u.t, a, Index(vp, n), Table(f)));
      && Grew(s, v, n) && SoundState(v) && NewHangs(s, v, a)
      && (r.Ok? ==> Reaches(v.t, a, n, vp, r.value) && NewInUse(s.t, v.t, r.value))
  {
    hide Index, Child, Based, Covers, Span, Grew, Shaped, NewInUse, Reaches, NewHangs;
    KeysAre(s.t, s.place);
    KeptAbove(s1, u, a, n);
    TableFacts(s1.t, s1.place, f);
    KeptRoot(s1, u, f, n - 1);
    KeptRoot(s, s1, a, n);
    GrewUp(s1, u, n - 1);
    GrewTrans(s, s1, u, n);
    LinkGrew(s, u, a, Index(vp, n), f, n);
    if r.Ok? { LinkReaches(s, s1, u, a, n, f, vp, r.value); }
    LinkHangs(s, s1, u, a, Index(vp, n), f);
  }

  /** After the link the path runs through the new table, and the new tables are in use. */
  lemma LinkReaches(s: State, s1: State, u: State, a: nat, n: nat, f: nat, vp: nat, b: nat)
    requires SoundState(u) && a in s.t && a in u.t && u.place[a].level == n > 0 && At(u.place, a, vp) &&
      s.t.Keys <= u.t.Keys && f !in s.t
    requires f in u.t && u.place[f].level == n - 1 && At(u.place, f, vp) && Reaches(u.t, f, n - 1, vp, b)
    requires NewInUse(s1.t, u.t, b) && s1.t.Keys == s.t.Keys + {f}
    ensures |u.t[a]| == ENTRIES && Reaches(Put(u.t, a, Index(vp, n), Table(f)), a, n, vp, b)
    ensures NewInUse(s.t, Put(u.t, a, Index(vp, n), Table(f)), b)
  {
    hide Index, Child, Based, Covers, Span, HasDescriptor, Reaches, Shaped;
    TableFacts(u.t, u.place, a);
    var t' := Put(u.t, a, Index(vp, n), Table(f));
    ReachesSame(u.t, t', u.place, f, vp, b);
    ReachesThrough(t', a, n, vp, f, b);
    ReachedInUse(u.t, f, n - 1, vp, b);
    LinkInUse(s.t, u.t, a, Index(vp, n), f, b);
  }

  lemma ReachesThrough(t: Tables, a: nat, n: nat, vp: nat, f: nat, b: nat)
    requires n > 0 && a in t && |t[a]| == ENTRIES && t[a][Index(vp, n)] == Table(f) && Reaches(t, f, n - 1, vp, b)
    ensures Reaches(t, a, n, vp, b)
  {
    hide Index;
  }

  lemma EmptyNotBlocked(t: Tables, a: nat, n: nat, vp: nat)
    requires a in t && t[a] == EMPTY
    ensures !Blocked(t, a, n, vp, false)
  {
  }

  lemma InUseOnPath(t: Tables, root: nat, vp: nat, top: nat)
    requires forall a :: a in t && a != root ==> HasDescriptor(t, a)
    ensures UnusedOnPath(t, root, root, top, vp)
  {
    hide OnPath;
    forall b | b in t && b != root ensures !NoDescriptor(t, b) { assert HasDescriptor(t, b); }
  }

  lemma KeptRoot(s: State, s': State, a: nat, n: nat)
    requires Grew(s, s', n) && a in s.t && a in s.place
    ensures a in s'.t && a in s'.place && s'.place[a] == s.place[a]
    ensures s'.t.Keys + s'.frames == s.t.Keys + s.frames && s.t.Keys <= s'.t.Keys
    ensures Grown(s.t, s'.t)
  {
  }

  /** Tables that had a descriptor keep one, and the one that gets the page descriptor has it now. */
  lemma PutInUse(t: Tables, u: Tables, root: nat, b: nat, i: nat, s: Slot)
    requires Grown(t, u) && NewInUse(t, u, b) && b in u && i < |u[b]| && !s.Invalid?
    requires forall a :: a in t ==> |t[a]| == ENTRIES
    requires forall a :: a in t && a != root ==> HasDescriptor(t, a)
    ensures forall a :: a in Put(u, b, i, s) && a != root ==> HasDescriptor(Put(u, b, i, s), a)
  {
    var v := Put(u, b, i, s);
    forall a | a in v && a != root ensures HasDescriptor(v, a) {
      if a == b {
        assert !v[a][i].Invalid?;
      } else if a in t {
        var j :| 0 <= j < |t[a]| && !t[a][j].Invalid?;
        assert KeptSlot(t, t[a][j], u[a][j]);
        assert !v[a][j].Invalid?;
      } else {
        assert HasDescriptor(u, a);
      }
    }
  }

  lemma Lengths(t: Tables, place: map<nat, Place>)
    requires Shaped(t, place)
    ensures forall a :: a in t ==> |t[a]| == ENTRIES
  {
  }

  lemma {:induction false} ReachedNotBlocked(t: Tables, a: nat, n: nat, vp: nat, b: nat)
    requires Reaches(t, a, n, vp, b)
    ensures !Blocked(t, a, n, vp, true)
    decreases n
  {
    hide Index;
    if n > 0 { ReachedNotBlocked(t, t[a][Index(vp, n)].addr, n - 1, vp, b); }
  }

  lemma TableFacts(t: Tables, place: map<nat, Place>, a: nat)
    requires Shaped(t, place) && a in t
    ensures |t[a]| == ENTRIES && a in place && Based(place[a].base, place[a].level)
  {
  }

  lemma KeptAbove(s: State, s': State, a: nat, n: nat)
    requires n > 0 && Grew(s, s', n - 1) && a in s.t && a in s.place && s.place[a].level == n
    ensures a in s'.t && s'.t[a] == s.t[a] && a in s'.place && s'.place[a] == s.place[a]
    ensures forall b :: b in s.place ==> b in s'.place && s'.place[b] == s.place[b]
    ensures s.t.Keys <= s'.t.Keys
  {
  }

  /** A table on the path above the last one has a valid descriptor. */
  lemma ReachedInUse(t: Tables, a: nat, n: nat, vp: nat, b: nat)
    requires Reaches(t, a, n, vp, b)
    ensures a == b || HasDescriptor(t, a)
  {
  }

  lemma SlotCovers(base: nat, n: nat, vp: nat)
    requires n > 0 && Based(base, n) && Covers(base, n, vp)
    ensures Covers(Child(base, n, Index(vp, n)), n - 1, vp)
  {
    SlotOfPage(base, n, vp);
    ChildStep(base, n, Index(vp, n));
  }
}
