/** The AArch64 translation tables (src/arch/aarch64/paging/mod.rs, VMSAv8-64): tables are 512 slots
    of memory addressed by page frame, and the walk follows them from the root. */
module PageTable {
  import opened Collections
  import opened Radix

  /** What a descriptor says besides the output address. */
  datatype Attr = Attr(writable: bool, executable: bool, user: bool, device: bool)

  /** A descriptor: `Leaf` is a page descriptor at level 0 and a block descriptor above it. */
  datatype Slot = Invalid | Table(addr: nat) | Leaf(frame: nat, attr: Attr)

  type Tables = map<nat, seq<Slot>>

  /** Where a table sits: its level, the first page it covers, and the table above it. */
  datatype Place = Place(level: nat, base: nat, up: nat)

  datatype Mapping = Mapping(frame: nat, attr: Attr)

  /** The translation of page `vp` by the level-`n` table `a`. */
  function Walk(t: Tables, a: nat, n: nat, vp: nat): Option<Mapping>
    decreases n
  {
    if a !in t || |t[a]| != ENTRIES then None
    else
      match t[a][Index(vp, n)]
      case Invalid => None
      case Leaf(frame, attr) => Some(Mapping(frame + vp % Span(n), attr))
      case Table(c) => if n == 0 then None else Walk(t, c, n - 1, vp)
  }

  /** Table `a` with one slot replaced. */
  function Put(t: Tables, a: nat, i: nat, s: Slot): Tables
    requires a in t && i < |t[a]|
  {
    t[a := t[a][i := s]]
  }

  ghost predicate SlotOk(t: Tables, place: map<nat, Place>, a: nat, i: nat)
    requires a in t && a in place && i < |t[a]|
  {
    t[a][i].Table? ==>
      && place[a].level > 0
      && t[a][i].addr in t && t[a][i].addr in place
      && place[t[a][i].addr] == Place(place[a].level - 1, Child(place[a].base, place[a].level, i), a)
  }

  /** Every table has its place, and a table descriptor leads to the table of that place. */
  ghost predicate Shaped(t: Tables, place: map<nat, Place>) {
    && t.Keys == place.Keys
    && (forall a :: a in t ==> |t[a]| == ENTRIES && Based(place[a].base, place[a].level))
    && (forall a, i :: a in t && 0 <= i < |t[a]| ==> SlotOk(t, place, a, i))
  }

  ghost predicate At(place: map<nat, Place>, a: nat, vp: nat)
    requires a in place
  {
    Covers(place[a].base, place[a].level, vp)
  }

  /** The child under the slot of `vp` covers `vp`. */
  lemma ChildAt(t: Tables, place: map<nat, Place>, a: nat, vp: nat)
    requires Shaped(t, place) && a in t && At(place, a, vp) && t[a][Index(vp, place[a].level)].Table?
    ensures var c := t[a][Index(vp, place[a].level)].addr;
      place[a].level > 0 && c in t && place[c].level == place[a].level - 1 && At(place, c, vp)
  {
    hide Index, Child, Based, Span;
    var n, i := place[a].level, Index(vp, place[a].level);
    assert SlotOk(t, place, a, i);
    SlotOfPage(place[a].base, n, vp);
    ChildStep(place[a].base, n, i);
  }

  /** A walk only looks at tables that cover its page, and there only at the page's own slot. */
  lemma {:induction false} WalkSame(t: Tables, t': Tables, place: map<nat, Place>, a: nat, vp: nat)
    requires Shaped(t, place) && a in t && At(place, a, vp)
    requires forall b :: b in t && At(place, b, vp) && place[b].level <= place[a].level ==>
      b in t' && |t'[b]| == ENTRIES && t'[b][Index(vp, place[b].level)] == t[b][Index(vp, place[b].level)]
    ensures Walk(t', a, place[a].level, vp) == Walk(t, a, place[a].level, vp)
    decreases place[a].level
  {
    hide Index, Child, Based, Span, Covers;
    var s := t[a][Index(vp, place[a].level)];
    if s.Table? {
      ChildAt(t, place, a, vp);
      WalkSame(t, t', place, s.addr, vp);
    }
  }

  // ---------------------------------------------------------------- adding tables

  /** From `t` to `t'` only empty or table-only tables were added, hung into slots that were invalid. */
  ghost predicate Grown(t: Tables, t': Tables) {
    && t.Keys <= t'.Keys
    && (forall a :: a in t' ==> |t'[a]| == ENTRIES)
    && (forall a, i :: a in t && 0 <= i < ENTRIES && |t[a]| == ENTRIES ==> KeptSlot(t, t[a][i], t'[a][i]))
    && (forall a, i :: a in t' && a !in t && 0 <= i < ENTRIES ==> KeptSlot(t, Invalid, t'[a][i]))
  }

  predicate KeptSlot(t: Tables, was: Slot, now: Slot) {
    now == was || (was.Invalid? && now.Table? && now.addr !in t)
  }

  lemma {:induction false} NewIsEmpty(t: Tables, t': Tables, a: nat, n: nat, vp: nat)
    requires Grown(t, t') && a !in t
    ensures Walk(t', a, n, vp) == None
    decreases n
  {
    hide Index, Span;
    if a in t' {
      var s := t'[a][Index(vp, n)];
      assert KeptSlot(t, Invalid, s);
      if s.Table? && n > 0 { NewIsEmpty(t, t', s.addr, n - 1, vp); }
    }
  }

  /** Growing changes no translation. */
  lemma {:induction false} GrownWalk(t: Tables, t': Tables, a: nat, n: nat, vp: nat)
    requires Grown(t, t') && forall b :: b in t ==> |t[b]| == ENTRIES
    requires a in t
    ensures Walk(t', a, n, vp) == Walk(t, a, n, vp)
    decreases n
  {
    hide Index, Span;
    var i := Index(vp, n);
    assert KeptSlot(t, t[a][i], t'[a][i]);
    if t'[a][i] != t[a][i] {
      if n > 0 { NewIsEmpty(t, t', t'[a][i].addr, n - 1, vp); }
    } else if t[a][i].Table? && n > 0 {
      if t[a][i].addr in t {
        GrownWalk(t, t', t[a][i].addr, n - 1, vp);
      } else {
        NewIsEmpty(t, t', t[a][i].addr, n - 1, vp);
      }
    }
  }

  lemma GrownTrans(t: Tables, u: Tables, v: Tables)
    requires Grown(t, u) && Grown(u, v) && forall b :: b in t ==> |t[b]| == ENTRIES
    ensures Grown(t, v)
  {
    forall a, i | a in t && 0 <= i < ENTRIES ensures KeptSlot(t, t[a][i], v[a][i]) {
      assert KeptSlot(t, t[a][i], u[a][i]);
      assert KeptSlot(u, u[a][i], v[a][i]);
    }
    forall a, i | a in v && a !in t && 0 <= i < ENTRIES ensures KeptSlot(t, Invalid, v[a][i]) {
      if a in u {
        assert KeptSlot(t, Invalid, u[a][i]);
        assert KeptSlot(u, u[a][i], v[a][i]);
      } else {
        assert KeptSlot(u, Invalid, v[a][i]);
      }
    }
  }

  // ---------------------------------------------------------------- the path of a page

  /** The walk of `vp` from the level-`n` table `a` goes down to the level-0 table `b`. */
  ghost predicate Reaches(t: Tables, a: nat, n: nat, vp: nat, b: nat)
    decreases n
  {
    && a in t && |t[a]| == ENTRIES
    && if n == 0 then a == b
       else t[a][Index(vp, n)].Table? && Reaches(t, t[a][Index(vp, n)].addr, n - 1, vp, b)
  }

  /** What the page descriptor of `vp` in the level-0 table `b` says. */
  function PageOf(t: Tables, b: nat, vp: nat): Option<Mapping> {
    if b in t && |t[b]| == ENTRIES && t[b][Index(vp, 0)].Leaf?
    then Some(Mapping(t[b][Index(vp, 0)].frame, t[b][Index(vp, 0)].attr)) else None
  }

  lemma {:induction false} ReachedWalk(t: Tables, a: nat, n: nat, vp: nat, b: nat)
    requires Reaches(t, a, n, vp, b)
    ensures Walk(t, a, n, vp) == PageOf(t, b, vp) && b in t && |t[b]| == ENTRIES
    decreases n
  {
    hide Index;
    if n > 0 { ReachedWalk(t, t[a][Index(vp, n)].addr, n - 1, vp, b); }
  }

  lemma {:induction false} ReachedPlace(t: Tables, place: map<nat, Place>, a: nat, vp: nat, b: nat)
    requires Shaped(t, place) && a in t && At(place, a, vp) && Reaches(t, a, place[a].level, vp, b)
    ensures b in t && place[b].level == 0 && At(place, b, vp)
    decreases place[a].level
  {
    hide Index, Covers;
    if place[a].level > 0 {
      ChildAt(t, place, a, vp);
      ReachedPlace(t, place, t[a][Index(vp, place[a].level)].addr, vp, b);
    }
  }

  /** The path ends early: at a block descriptor, or at an invalid one. */
  ghost predicate Blocked(t: Tables, a: nat, n: nat, vp: nat, missing: bool)
    decreases n
  {
    && a in t && |t[a]| == ENTRIES && n > 0
    && match t[a][Index(vp, n)]
       case Leaf(_, _) => true
       case Invalid => missing
       case Table(c) => Blocked(t, c, n - 1, vp, missing)
  }

  // ---------------------------------------------------------------- removing an empty table

  ghost predicate NoDescriptor(t: Tables, a: nat)
    requires a in t
  {
    forall i :: 0 <= i < |t[a]| ==> t[a][i].Invalid?
  }

  /** A table hangs in one slot only. */
  lemma OneParent(t: Tables, place: map<nat, Place>, a: nat, i: nat, b: nat, j: nat)
    requires Shaped(t, place) && a in t && b in t && i < ENTRIES && j < ENTRIES
    requires t[a][i].Table? && t[b][j].Table? && t[a][i].addr == t[b][j].addr
    ensures a == b && i == j
  {
    hide Based;
    assert SlotOk(t, place, a, i) && SlotOk(t, place, b, j);
    var base, n := place[a].base, place[a].level;
    assert base + i * Span(n) == base + j * Span(n);
    if i < j { MulStrict(i, j, Span(n)); } else if j < i { MulStrict(j, i, Span(n)); }
  }

  lemma MulStrict(a: nat, b: nat, s: nat)
    requires a < b && s > 0
    ensures a * s < b * s
  {
  }

  /** The empty table `c` under slot `i` of `a`, taken out. */
  function Pruned(t: Tables, a: nat, i: nat, c: nat): Tables
    requires a in t && i < |t[a]|
  {
    t[a := t[a][i := Invalid]] - {c}
  }

  lemma PrunedShaped(t: Tables, place: map<nat, Place>, a: nat, i: nat, c: nat)
    requires Shaped(t, place) && a in t && a != c && i < ENTRIES && t[a][i] == Table(c)
    ensures Shaped(Pruned(t, a, i, c), place - {c})
  {
    hide Based, Child;
    var t' := Pruned(t, a, i, c);
    forall b, j | b in t' && 0 <= j < |t'[b]| ensures SlotOk(t', place - {c}, b, j) {
      assert SlotOk(t, place, b, j);
      if t'[b][j].Table? && t'[b][j].addr == c {
        OneParent(t, place, a, i, b, j);
      }
    }
  }

  /** Taking an empty table out changes no translation. */
  lemma {:induction false} PrunedWalk(t: Tables, place: map<nat, Place>, a: nat, i: nat, c: nat, b: nat, m: nat,
                                      vp: nat)
    requires Shaped(t, place) && a in t && c in t && a != c && i < ENTRIES && t[a][i] == Table(c) && NoDescriptor(t, c)
    requires b in t && b != c
    ensures Walk(Pruned(t, a, i, c), b, m, vp) == Walk(t, b, m, vp)
    decreases m
  {
    hide Based, Child, Index, Span;
    var k := Index(vp, m);
    var t' := Pruned(t, a, i, c);
    if t[b][k].Table? && m > 0 {
      var d := t[b][k].addr;
      if d == c {
        OneParent(t, place, a, i, b, k);
        assert Walk(t, c, m - 1, vp) == None;
      } else {
        assert SlotOk(t, place, b, k);
        PrunedWalk(t, place, a, i, c, d, m - 1, vp);
      }
    }
  }

  /** `b` is a table below `a` on the path of `vp`. */
  ghost predicate OnPath(t: Tables, a: nat, n: nat, vp: nat, b: nat)
    decreases n
  {
    && a in t && |t[a]| == ENTRIES && n > 0 && t[a][Index(vp, n)].Table?
    && (b == t[a][Index(vp, n)].addr || OnPath(t, t[a][Index(vp, n)].addr, n - 1, vp, b))
  }

  lemma {:induction false} ReachedOnPath(t: Tables, a: nat, n: nat, vp: nat, b: nat)
    requires Reaches(t, a, n, vp, b)
    ensures a == b || OnPath(t, a, n, vp, b)
    decreases n
  {
    hide Index;
    if n > 0 { ReachedOnPath(t, t[a][Index(vp, n)].addr, n - 1, vp, b); }
  }

  // ---------------------------------------------------------------- block descriptors on a path

  lemma {:induction false} NewHasNoBlock(t: Tables, t': Tables, a: nat, n: nat, vp: nat)
    requires Grown(t, t') && a !in t
    ensures !Blocked(t', a, n, vp, false)
    decreases n
  {
    hide Index, Span;
    if a in t' {
      var s := t'[a][Index(vp, n)];
      assert KeptSlot(t, Invalid, s);
      if s.Table? && n > 0 { NewHasNoBlock(t, t', s.addr, n - 1, vp); }
    }
  }

  /** Growing puts no block descriptor on a path. */
  lemma {:induction false} GrownBlocks(t: Tables, t': Tables, a: nat, n: nat, vp: nat)
    requires Grown(t, t') && forall b :: b in t ==> |t[b]| == ENTRIES
    requires a in t && Blocked(t', a, n, vp, false)
    ensures Blocked(t, a, n, vp, false)
    decreases n
  {
    hide Index, Span;
    var i := Index(vp, n);
    assert KeptSlot(t, t[a][i], t'[a][i]);
    if t'[a][i].Table? {
      if t'[a][i].addr in t {
        GrownBlocks(t, t', t'[a][i].addr, n - 1, vp);
      } else {
        NewHasNoBlock(t, t', t'[a][i].addr, n - 1, vp);
      }
    }
  }

  /** Writing a level-0 slot puts no block descriptor on a path. */
  lemma {:induction false} PageBlocks(t: Tables, t': Tables, place: map<nat, Place>, a: nat, vp: nat)
    requires Shaped(t, place) && a in t && At(place, a, vp) && Blocked(t', a, place[a].level, vp, false)
    requires forall b :: b in t && place[b].level > 0 ==> b in t' && t'[b] == t[b]
    ensures Blocked(t, a, place[a].level, vp, false)
    decreases place[a].level
  {
    hide Index, Child, Based, Span, Covers;
    var s := t[a][Index(vp, place[a].level)];
    if s.Table? {
      ChildAt(t, place, a, vp);
      PageBlocks(t, t', place, s.addr, vp);
    }
  }

  /** Taking a table out puts no block descriptor on a path. */
  lemma {:induction false} PrunedBlocks(t: Tables, place: map<nat, Place>, a: nat, i: nat, c: nat, b: nat, m: nat,
                                        vp: nat)
    requires Shaped(t, place) && a in t && c in t && a != c && i < ENTRIES && t[a][i] == Table(c)
    requires b in t && b != c && Blocked(Pruned(t, a, i, c), b, m, vp, false)
    ensures Blocked(t, b, m, vp, false)
    decreases m
  {
    hide Based, Child, Index, Span;
    var k := Index(vp, m);
    if t[b][k].Table? && !(b == a && k == i) {
      assert SlotOk(t, place, b, k);
      if t[b][k].addr == c { OneParent(t, place, a, i, b, k); }
      PrunedBlocks(t, place, a, i, c, t[b][k].addr, m - 1, vp);
    }
  }

  /** A page that is mapped, but not by a block, has its page descriptor. */
  lemma {:induction false} MappedByPage(t: Tables, a: nat, n: nat, vp: nat)
    requires Walk(t, a, n, vp).Some? && !Blocked(t, a, n, vp, false)
    ensures !Blocked(t, a, n, vp, true)
    decreases n
  {
    hide Index, Span;
    if n > 0 && t[a][Index(vp, n)].Table? { MappedByPage(t, t[a][Index(vp, n)].addr, n - 1, vp); }
  }

  // ---------------------------------------------------------------- whole paths

  /** The slots on the path of `vp` are the same in both. */
  ghost predicate SamePath(t: Tables, t': Tables, a: nat, n: nat, vp: nat)
    decreases n
  {
    && a in t && a in t' && |t[a]| == ENTRIES && |t'[a]| == ENTRIES && t'[a][Index(vp, n)] == t[a][Index(vp, n)]
    && (n > 0 && t[a][Index(vp, n)].Table? ==> SamePath(t, t', t[a][Index(vp, n)].addr, n - 1, vp))
  }

  /** Like a walk, a path only depends on the slots of its page. */
  lemma {:induction false} PathKept(t: Tables, t': Tables, place: map<nat, Place>, a: nat, vp: nat)
    requires Shaped(t, place) && a in t && At(place, a, vp)
    requires forall b :: b in t && At(place, b, vp) && place[b].level <= place[a].level ==>
      b in t' && |t'[b]| == ENTRIES && t'[b][Index(vp, place[b].level)] == t[b][Index(vp, place[b].level)]
    ensures SamePath(t, t', a, place[a].level, vp)
    decreases place[a].level
  {
    hide Index, Child, Based, Span, Covers;
    var s := t[a][Index(vp, place[a].level)];
    if s.Table? {
      ChildAt(t, place, a, vp);
      PathKept(t, t', place, s.addr, vp);
    }
  }

  lemma {:induction false} SamePathTrans(t: Tables, u: Tables, w: Tables, a: nat, n: nat, vp: nat)
    requires SamePath(t, u, a, n, vp) && SamePath(u, w, a, n, vp)
    ensures SamePath(t, w, a, n, vp)
    decreases n
  {
    hide Index;
    if n > 0 && t[a][Index(vp, n)].Table? { SamePathTrans(t, u, w, t[a][Index(vp, n)].addr, n - 1, vp); }
  }

  lemma {:induction false} SamePathBlocked(t: Tables, t': Tables, a: nat, n: nat, vp: nat, missing: bool)
    requires SamePath(t, t', a, n, vp)
    ensures Blocked(t', a, n, vp, missing) == Blocked(t, a, n, vp, missing)
    decreases n
  {
    hide Index;
    if n > 0 && t[a][Index(vp, n)].Table? { SamePathBlocked(t, t', t[a][Index(vp, n)].addr, n - 1, vp, missing); }
  }

  lemma {:induction false} SamePathWalk(t: Tables, t': Tables, a: nat, n: nat, vp: nat)
    requires SamePath(t, t', a, n, vp)
    ensures Walk(t', a, n, vp) == Walk(t, a, n, vp)
    decreases n
  {
    hide Index, Span;
    if n > 0 && t[a][Index(vp, n)].Table? { SamePathWalk(t, t', t[a][Index(vp, n)].addr, n - 1, vp); }
  }
}
