/** Which tables the bulk path (src/arch/aarch64/paging/mod.rs) loses: tables that hung below the table it works on,
    or that it made, and that no walk comes to afterwards. */
module AreaLoss {
  import opened Collections
  import opened Radix
  import opened PageTable
  import opened TablePaths
  import opened Paging
  import opened Area
  import opened AreaPaths
  import opened AreaForecast

  ghost predicate Under(s: State, a: nat, b: nat) { Hangs(s.t, s.place, a, b) }

  /** Table `b` was below `a`, or was not there yet, and is not below `a` now. */
  ghost predicate Drops(s: State, s': State, a: nat, b: nat) {
    b in s'.t && !Under(s', a, b) && (b in s.t ==> Under(s, a, b))
  }

  ghost predicate DropsSome(s: State, s': State, a: nat) { exists b :: Drops(s, s', a, b) }

  /** A table that was not below `a` does not come back. */
  ghost predicate NoneBack(s: State, s': State, a: nat) {
    forall b :: b in s.t && Under(s', a, b) ==> Under(s, a, b)
  }

  /** Tables below `a` were lost exactly if `loses` says so. */
  ghost predicate Loss(s: State, s': State, a: nat, loses: bool) { NoneBack(s, s', a) &&
    (DropsSome(s, s', a) <==> loses) }

  lemma LossNone(s: State, a: nat)
    ensures Loss(s, s, a, false)
  {
    hide Under;
  }

  lemma LossThen(s: State, u: State, w: State, a: nat, x: bool, y: bool)
    requires Loss(s, u, a, x) && Loss(u, w, a, y) && s.t.Keys <= u.t.Keys <= w.t.Keys
    ensures Loss(s, w, a, x || y)
  {
    hide Under;
    forall b ensures Drops(s, w, a, b) <==> Drops(s, u, a, b) || Drops(u, w, a, b) { }
    if x { var b :| Drops(s, u, a, b); assert Drops(s, w, a, b); }
    if y { var b :| Drops(u, w, a, b); assert Drops(s, w, a, b); }
  }

  lemma {:induction false} LeadsIn(t: Tables, a: nat, n: nat, vp: nat, b: nat, m: nat)
    requires LeadsTo(t, a, n, vp, b, m)
    ensures b in t
    decreases n
  {
    hide Index;
    if n > m { LeadsIn(t, t[a][Index(vp, n)].addr, n - 1, vp, b, m); }
  }

  // ---------------------------------------------------------------- one slot written

  lemma PutLoss(s: State, a: nat, i: nat, x: Slot)
    requires SoundState(s) && a in s.t && i < ENTRIES && |s.t[a]| == ENTRIES && !x.Table? &&
      SoundState(s.(t := Put(s.t, a, i, x)))
    ensures Loss(s, s.(t := Put(s.t, a, i, x)), a, s.t[a][i].Table?)
  {
    hide LeadsTo, Index, Covers, Shaped;
    KeysAre(s.t, s.place);
    var s', n := s.(t := Put(s.t, a, i, x)), s.place[a].level;
    assert s'.t[a][i := s.t[a][i]] == s.t[a];
    assert Put(s'.t, a, i, s.t[a][i]) == s.t;
    forall b | b in s.t && Under(s', a, b) ensures Under(s, a, b) {
      PutLeads(s'.t, a, n, s.place[b].base, b, s.place[b].level, a, i, s.t[a][i]);
    }
    if s.t[a][i].Table? {
      CutOff(s, a, i, x);
      assert Drops(s, s', a, s.t[a][i].addr);
    } else {
      forall b | b in s.t && Under(s, a, b) ensures Under(s', a, b) {
        PutLeads(s.t, a, n, s.place[b].base, b, s.place[b].level, a, i, x);
      }
    }
  }

  lemma CutOff(s: State, a: nat, i: nat, x: Slot)
    requires SoundState(s) && a in s.t && i < ENTRIES && |s.t[a]| == ENTRIES && !x.Table? && s.t[a][i].Table?
    requires SoundState(s.(t := Put(s.t, a, i, x)))
    ensures var c := s.t[a][i].addr; c in s.t && Under(s, a, c) && !Under(s.(t := Put(s.t, a, i, x)), a, c)
  {
    hide LeadsTo, Index, Covers, Child, Based;
    var s', c := s.(t := Put(s.t, a, i, x)), s.t[a][i].addr;
    assert SlotOk(s.t, s.place, a, i);
    SelfHangs(s.t, s.place, c);
    HangsUp(s.t, s.place, a, i, c);
    if Under(s', a, c) { HangsDown(s'.t, s'.place, a, c); }
  }

  // ---------------------------------------------------------------- the table below a slot

  /** Below a table means below the child in the slot, except for the table itself. */
  lemma UnderSlot(s: State, a: nat, i: nat, b: nat)
    requires SoundState(s) && a in s.t && b in s.t && b != a && i < ENTRIES && |s.t[a]| == ENTRIES && s.t[a][i].Table?
    requires Index(s.place[b].base, s.place[a].level) == i
    ensures Under(s, a, b) <==> Under(s, s.t[a][i].addr, b)
  {
    hide LeadsTo, Index, Covers, Shaped;
    if Under(s, a, b) { HangsDown(s.t, s.place, a, b); }
    if Under(s, s.t[a][i].addr, b) { HangsUp(s.t, s.place, a, i, b); }
  }

  /** Tables of other slots are where they were. */
  lemma UnderElsewhere(s: State, s': State, a: nat, base: nat, n: nat, i: nat, b: nat)
    requires SoundState(s) && SoundState(s') && a in s.t && s.place[a].level == n && s.place[a].base == base &&
      i < ENTRIES
    requires a in s'.t && s'.place[a] == s.place[a] && b in s'.t && (b in s.t ==> s'.place[b] == s.place[b])
    requires Elsewhere(s.t, s'.t, a, base, n, Child(base, n, i), Child(base, n, i + 1)) &&
      Index(s'.place[b].base, n) != i
    ensures Under(s', a, b) ==> b in s.t
    ensures b in s.t ==> (Under(s', a, b) <==> Under(s, a, b))
  {
    hide LeadsTo, Index, Based, Child, Span, SamePath, Shaped;
    KeysAre(s.t, s.place);
    KeysAre(s'.t, s'.place);
    var vp, m := s'.place[b].base, s'.place[b].level;
    if At(s.place, a, vp) {
      TableFacts(s.t, s.place, a);
      NotInSlot(base, n, i, vp);
      SamePathLeads(s.t, s'.t, a, n, vp, b, m);
      if LeadsTo(s.t, a, n, vp, b, m) { LeadsIn(s.t, a, n, vp, b, m); }
    }
  }

  lemma NotInSlot(base: nat, n: nat, i: nat, vp: nat)
    requires Based(base, n) && Covers(base, n, vp) && Index(vp, n) != i && i < ENTRIES
    ensures vp < Child(base, n, i) || Child(base, n, i + 1) <= vp
  {
    hide Index, Based, Child, Span, Covers;
    if Child(base, n, i) <= vp < Child(base, n, i + 1) { SlotUnique(base, n, vp, i); }
  }

  /** What the call below slot `i` lost is what is lost below `a`. */
  lemma LiftedLoss(s: State, s': State, a: nat, base: nat, n: nat, i: nat, c: nat, loses: bool)
    requires SoundState(s) && SoundState(s') && a in s.t && s.place[a].level == n && s.place[a].base == base &&
      i < ENTRIES
    requires |s.t[a]| == ENTRIES && s.t[a][i] == Table(c) && a in s'.t && |s'.t[a]| == ENTRIES && s'.t[a][i] == Table(c)
    requires forall b :: b in s.t ==> b in s'.t && s'.place[b] == s.place[b]
    requires Elsewhere(s.t, s'.t, a, base, n, Child(base, n, i), Child(base, n, i + 1)) && Loss(s, s', c, loses)
    ensures Loss(s, s', a, loses)
  {
    hide Under, Index, Shaped, Elsewhere;
    KeysAre(s'.t, s'.place);
    assert Under(s, a, a) && Under(s', a, a) by { UnderItself(s, a); UnderItself(s', a); }
    UnderNot(s, a, i);
    UnderNot(s', a, i);
    forall b | b in s'.t && b != a
      ensures Index(s'.place[b].base, n) == i ==>
        (Under(s', a, b) <==> Under(s', c, b)) && (b in s.t ==> (Under(s, a, b) <==> Under(s, c, b)))
      ensures Index(s'.place[b].base, n) != i ==>
        (Under(s', a, b) ==> b in s.t) && (b in s.t ==> (Under(s', a, b) <==> Under(s, a, b)))
      ensures Index(s'.place[b].base, n) != i ==> !Under(s', c, b) && (b in s.t ==> !Under(s, c, b))
    {
      if Index(s'.place[b].base, n) == i {
        UnderSlot(s', a, i, b);
        if b in s.t { UnderSlot(s, a, i, b); }
      } else {
        UnderElsewhere(s, s', a, base, n, i, b);
        if Under(s', c, b) { UnderIndex(s', a, i, b); }
        if b in s.t && Under(s, c, b) { UnderIndex(s, a, i, b); }
      }
    }
    forall b ensures Drops(s, s', a, b) <==> Drops(s, s', c, b) { }
    if loses { var b :| Drops(s, s', c, b); assert Drops(s, s', a, b); }
  }

  lemma UnderItself(s: State, a: nat)
    requires SoundState(s) && a in s.t
    ensures Under(s, a, a)
  {
    SelfHangs(s.t, s.place, a);
  }

  lemma UnderNot(s: State, a: nat, i: nat)
    requires SoundState(s) && a in s.t && i < ENTRIES && |s.t[a]| == ENTRIES && s.t[a][i].Table?
    ensures !Under(s, s.t[a][i].addr, a)
  {
    if Under(s, s.t[a][i].addr, a) { HangsUp(s.t, s.place, a, i, a); }
  }

  lemma UnderIndex(s: State, a: nat, i: nat, b: nat)
    requires SoundState(s) && a in s.t && i < ENTRIES && |s.t[a]| == ENTRIES && s.t[a][i].Table? &&
      Under(s, s.t[a][i].addr, b)
    ensures Under(s, a, b) && b in s.place && Index(s.place[b].base, s.place[a].level) == i
  {
    HangsUp(s.t, s.place, a, i, b);
  }

  // ---------------------------------------------------------------- a new table

  lemma UnderEmpty(s: State, c: nat, b: nat)
    requires SoundState(s) && c in s.t && NoDescriptor(s.t, c) && Under(s, c, b)
    ensures b == c
  {
    hide Index, Covers, Child, Based;
    if b != c { HangsDown(s.t, s.place, c, b); }
  }

  lemma UnderInvalid(s: State, a: nat, i: nat, b: nat)
    requires SoundState(s) && a in s.t && b in s.t && b != a && i < ENTRIES && |s.t[a]| == ENTRIES && !s.t[a][i].Table?
    requires Index(s.place[b].base, s.place[a].level) == i
    ensures !Under(s, a, b)
  {
    hide Index, Covers, Child, Based;
    if Under(s, a, b) { HangsDown(s.t, s.place, a, b); }
  }

  /** A write to a table above does not change what hangs below `c`. */
  lemma UnderBeside(s: State, a: nat, i: nat, x: Slot, c: nat, b: nat)
    requires SoundState(s) && a in s.t && c in s.t && s.place[c].level < s.place[a].level && i < ENTRIES &&
      |s.t[a]| == ENTRIES
    ensures Under(s.(t := Put(s.t, a, i, x)), c, b) <==> Under(s, c, b)
  {
    hide LeadsTo, SamePath, Index, Covers, Child, Based;
    if b in s.place && At(s.place, c, s.place[b].base) {
      PathKept(s.t, Put(s.t, a, i, x), s.place, c, s.place[b].base);
      SamePathLeads(s.t, Put(s.t, a, i, x), c, s.place[c].level, s.place[b].base, b, s.place[b].level);
    }
  }

  /** The new table `c` was filled in `u` and is hung: what was lost below it is lost below `a`. */
  lemma HungLoss(s: State, s1: State, u: State, a: nat, base: nat, n: nat, i: nat, c: nat, loses: bool)
    requires SoundState(s) && SoundState(s1) && SoundState(u) && a in s.t && s.place[a].level == n > 0 &&
      s.place[a].base == base && i < ENTRIES
    requires |s.t[a]| == ENTRIES && s.t[a][i].Invalid? && c !in s.t && s1.t.Keys == s.t.Keys + {c} &&
      NoDescriptor(s1.t, c)
    requires a in u.t && |u.t[a]| == ENTRIES && c in u.t && u.place[c].level == n - 1 && SoundState(Hung(u, a, i, c))
    requires forall b :: b in s.t ==> b in u.t && u.place[b] == s.place[b]
    requires Elsewhere(s.t, Hung(u, a, i, c).t, a, base, n, Child(base, n, i), Child(base, n, i + 1)) &&
      Loss(s1, u, c, loses)
    ensures Loss(s, Hung(u, a, i, c), a, loses)
  {
    hide Under, Index, Shaped, Elsewhere, NoDescriptor, Child;
    var w := Hung(u, a, i, c);
    KeysAre(u.t, u.place);
    KeysAre(s.t, s.place);
    UnderItself(s, a);
    UnderItself(w, a);
    UnderItself(u, c);
    UnderNot(w, a, i);
    forall b ensures b in s1.t && Under(s1, c, b) ==> b == c { if Under(s1, c, b) { UnderEmpty(s1, c, b); } }
    forall b ensures Under(w, c, b) <==> Under(u, c, b) { UnderBeside(u, a, i, Table(c), c, b); }
    forall b | b in w.t && b != a
      ensures Index(w.place[b].base, n) == i ==> (Under(w, a, b) <==> Under(w, c, b)) && (b in s.t ==> !Under(s, a, b))
      ensures Index(w.place[b].base, n) != i ==>
        (Under(w, a, b) ==> b in s.t) && (b in s.t ==> (Under(w, a, b) <==> Under(s, a, b)))
      ensures Index(w.place[b].base, n) != i ==> !Under(w, c, b)
    {
      if Index(w.place[b].base, n) == i {
        UnderSlot(w, a, i, b);
        if b in s.t { UnderInvalid(s, a, i, b); }
      } else {
        UnderElsewhere(s, w, a, base, n, i, b);
        if Under(w, c, b) { UnderIndex(w, a, i, b); }
      }
    }
    forall b ensures Drops(s, w, a, b) <==> Drops(s1, u, c, b) { }
    if loses { var b :| Drops(s1, u, c, b); assert Drops(s, w, a, b); }
  }

  /** Some slot that was invalid holds a table now. */
  ghost predicate HungNew(was: seq<Slot>, now: seq<Slot>) {
    |was| == |now| == ENTRIES && exists x :: 0 <= x < ENTRIES && was[x].Invalid? && now[x].Table?
  }

  /** Where slot `i` was and is invalid and everything else is the same, only new tables are lost, and all of them. */
  lemma BackDrops(s: State, w: State, a: nat, base: nat, n: nat, i: nat)
    requires SoundState(s) && SoundState(w) && a in s.t && s.place[a].level == n && s.place[a].base == base &&
      i < ENTRIES
    requires |s.t[a]| == ENTRIES && s.t[a][i].Invalid? && a in w.t && w.t[a] == s.t[a]
    requires forall b :: b in s.t ==> b in w.t && w.place[b] == s.place[b]
    requires Elsewhere(s.t, w.t, a, base, n, Child(base, n, i), Child(base, n, i + 1))
    ensures NoneBack(s, w, a) && forall b :: Drops(s, w, a, b) <==> b in w.t && b !in s.t
  {
    hide Under, Index, Shaped, Elsewhere, Child;
    KeysAre(w.t, w.place);
    UnderItself(s, a);
    UnderItself(w, a);
    forall b | b in w.t && b != a
      ensures (Under(w, a, b) ==> b in s.t) && (b in s.t ==> (Under(w, a, b) <==> Under(s, a, b)))
    {
      if Index(w.place[b].base, n) == i {
        UnderInvalid(w, a, i, b);
        if b in s.t { UnderInvalid(s, a, i, b); }
      } else {
        UnderElsewhere(s, w, a, base, n, i, b);
      }
    }
  }

  /** The new table `c` could not be filled and is given back in `w`: everything made below it is lost. */
  lemma BackLoss(s: State, s1: State, u: State, w: State, a: nat, base: nat, n: nat, i: nat, c: nat, made: bool,
                 loses: bool)
    requires SoundState(s) && SoundState(s1) && SoundState(u) && SoundState(w)
    requires a in s.t && s.place[a].level == n && s.place[a].base == base && i < ENTRIES
    requires |s.t[a]| == ENTRIES && s.t[a][i].Invalid? && c !in s.t && s1.t.Keys == s.t.Keys + {c} &&
      NoDescriptor(s1.t, c)
    requires c in u.t && |s1.t[c]| == ENTRIES && |u.t[c]| == ENTRIES && (HungNew(s1.t[c], u.t[c]) <==> made)
    requires w.t.Keys == u.t.Keys - {c} && a in w.t && w.t[a] == s.t[a]
    requires forall b :: b in s.t ==> b in w.t && w.place[b] == s.place[b]
    requires Elsewhere(s.t, w.t, a, base, n, Child(base, n, i), Child(base, n, i + 1)) && Loss(s1, u, c, loses)
    ensures Loss(s, w, a, made || loses)
  {
    hide Under, Shaped, Elsewhere, Child, HungNew, NoDescriptor, Drops, NoneBack, SoundState;
    BackDrops(s, w, a, base, n, i);
    NewUnder(s1, u, c, made, loses);
    if made || loses {
      var b :| b in u.t && b !in s1.t;
      assert Drops(s, w, a, b);
    }
    if DropsSome(s, w, a) {
      var b :| Drops(s, w, a, b);
      assert b in u.t && b !in s1.t;
    }
  }

  /** A call on an empty table made tables exactly if it hung one there or lost one. */
  lemma NewUnder(s1: State, u: State, c: nat, made: bool, loses: bool)
    requires SoundState(s1) && SoundState(u) && c in s1.t && c in u.t && NoDescriptor(s1.t, c) &&
      |s1.t[c]| == ENTRIES && |u.t[c]| == ENTRIES
    requires (HungNew(s1.t[c], u.t[c]) <==> made) && Loss(s1, u, c, loses)
    ensures made || loses <==> exists b :: b in u.t && b !in s1.t
  {
    hide Under, Index, Shaped;
    UnderItself(u, c);
    forall b ensures b in s1.t && Under(s1, c, b) ==> b == c { if Under(s1, c, b) { UnderEmpty(s1, c, b); } }
    if made {
      var x :| 0 <= x < ENTRIES && s1.t[c][x].Invalid? && u.t[c][x].Table?;
      ChildUnder(u, c, x);
    }
    if loses { var b :| Drops(s1, u, c, b); assert b in u.t && b !in s1.t; }
    forall b | b in u.t && b !in s1.t ensures made || loses {
      if Under(u, c, b) { SomeChild(u, c, b); } else { assert Drops(s1, u, c, b); }
    }
  }

  lemma ChildUnder(s: State, c: nat, x: nat)
    requires SoundState(s) && c in s.t && x < ENTRIES && |s.t[c]| == ENTRIES && s.t[c][x].Table?
    ensures var b := s.t[c][x].addr; b in s.t && b != c && Under(s, c, b)
  {
    hide LeadsTo, Index, Covers, Child, Based;
    assert SlotOk(s.t, s.place, c, x);
    SelfHangs(s.t, s.place, s.t[c][x].addr);
    HangsUp(s.t, s.place, c, x, s.t[c][x].addr);
  }

  lemma SomeChild(s: State, c: nat, b: nat)
    requires SoundState(s) && c in s.t && b != c && |s.t[c]| == ENTRIES && Under(s, c, b)
    ensures exists x :: 0 <= x < ENTRIES && s.t[c][x].Table?
  {
    hide LeadsTo, Covers, Child, Based;
    HangsDown(s.t, s.place, c, b);
  }

  // ---------------------------------------------------------------- the forecast comes true

  /** Only the slots `lo..hi` of a table may have changed. */
  ghost predicate KeptSlots(was: seq<Slot>, now: seq<Slot>, lo: nat, hi: nat) {
    |was| == |now| == ENTRIES && forall x :: 0 <= x < ENTRIES && (x < lo || hi <= x) ==> now[x] == was[x]
  }

  lemma HungNewThen(was: seq<Slot>, mid: seq<Slot>, now: seq<Slot>, lo: nat, k: nat, hi: nat)
    requires KeptSlots(was, mid, lo, k) && KeptSlots(mid, now, k, hi) && lo <= k <= hi
    ensures KeptSlots(was, now, lo, hi) && (HungNew(was, now) <==> HungNew(was, mid) || HungNew(mid, now))
  {
    if HungNew(was, mid) {
      var x :| 0 <= x < ENTRIES && was[x].Invalid? && mid[x].Table?;
      assert now[x].Table?;
    }
    if HungNew(mid, now) {
      var x :| 0 <= x < ENTRIES && mid[x].Invalid? && now[x].Table?;
      assert was[x].Invalid?;
    }
  }

  lemma SameSlots(was: seq<Slot>, lo: nat, hi: nat)
    requires |was| == ENTRIES
    ensures KeptSlots(was, was, lo, hi) && !HungNew(was, was)
  {
  }

  /** The call ended as the forecast says. */
  ghost predicate Ends(r: Result<Job>, s': State, d: Trip) {
    match d.end
    case Through => r == Ok(d.rest) && |s'.frames| == d.free
    case NotFound => r == Err(EntryIsNotFound)
    case RanOut => r == Err(MemoryCacheRanOut)
  }

  /** It hung new tables into `a`, and lost tables, as the forecast says. */
  ghost predicate Leaves(s: State, s': State, a: nat, d: Trip) {
    a in s.t && a in s'.t && Loss(s, s', a, d.loses) && (HungNew(s.t[a], s'.t[a]) <==> d.made)
  }

  lemma LeavesNone(s: State, a: nat, d: Trip)
    requires a in s.t && |s.t[a]| == ENTRIES && !d.made && !d.loses
    ensures Leaves(s, s, a, d)
  {
    hide Loss, HungNew;
    LossNone(s, a);
    SameSlots(s.t[a], 0, 0);
  }

  lemma LeavesThen(s: State, u: State, w: State, a: nat, lo: nat, k: nat, hi: nat, d: Trip, e: Trip)
    requires Leaves(s, u, a, d) && Leaves(u, w, a, e) && s.t.Keys <= u.t.Keys <= w.t.Keys && lo <= k <= hi
    requires KeptSlots(s.t[a], u.t[a], lo, k) && KeptSlots(u.t[a], w.t[a], k, hi)
    ensures Leaves(s, w, a, After(d, e)) && KeptSlots(s.t[a], w.t[a], lo, hi)
  {
    hide Loss, HungNew, KeptSlots;
    LossThen(s, u, w, a, d.loses, e.loses);
    HungNewThen(s.t[a], u.t[a], w.t[a], lo, k, hi);
  }

  lemma FrameKeys(s: State, s': State, n: nat, lo: nat, hi: nat)
    requires SoundState(s) && AreaFrame(s, s', n, lo, hi)
    ensures s.t.Keys <= s'.t.Keys
  {
    hide RangeIn;
  }

  lemma SameAfter(t: Tables, u: Tables, a: nat, base: nat, n: nat, lo: nat, i: nat)
    requires Elsewhere(t, u, a, base, n, lo, Child(base, n, i))
    ensures SameFrom(t, u, a, base, n, i)
  {
    hide SamePath, Covers;
  }

  /** Page descriptors cut no table off. */
  lemma PagesLeave(s: State, s': State, a: nat, d: Trip)
    requires SoundState(s) && SoundState(s') && a in s.t && s.place[a].level == 0 && s'.t.Keys == s.t.Keys &&
      s'.place == s.place
    requires !d.made && !d.loses
    ensures Leaves(s, s', a, d)
  {
    hide LeadsTo, Covers, Child, Based, Index;
    UnderItself(s, a);
    UnderItself(s', a);
    forall b | b != a ensures !Under(s, a, b) && !Under(s', a, b) {
      if Under(s, a, b) { HangsDown(s.t, s.place, a, b); }
      if Under(s', a, b) { HangsDown(s'.t, s'.place, a, b); }
    }
    forall x | 0 <= x < ENTRIES ensures !s'.t[a][x].Table? { PageSlot(s'.t, s'.place, a, x); }
  }

  lemma PagesForecast(t: Tables, a: nat, base: nat, j: Job, free: nat, unmap: bool)
    requires Based(base, 0) && Covers(base, 0, j.v)
    ensures Forecast(t, Some(a), 0, j, free, unmap) == Trip(Through, Advance(j, Reach(j, base, 0)), free, false, false)
  {
    hide Index, Based;
    PageIndex(base, j.v);
  }

  /** One block descriptor more. */
  lemma BlockLeaves(s: State, u: State, a: nat, i0: nat, i: nat, x: Slot, g: Trip, e: Trip)
    requires SoundState(s) && SoundState(u) && i0 <= i < ENTRIES && !x.Table? && s.t.Keys == u.t.Keys &&
      Leaves(s, u, a, g)
    requires |u.t[a]| == ENTRIES && SoundState(u.(t := Put(u.t, a, i, x))) && KeptSlots(s.t[a], u.t[a], i0, i)
    requires g.loses == TableAmong(s.t, Some(a), i0, i) && !g.made && !e.made &&
      e.loses == TableAmong(s.t, Some(a), i0, i + 1)
    ensures Leaves(s, u.(t := Put(u.t, a, i, x)), a, e) && KeptSlots(s.t[a], Put(u.t, a, i, x)[a], i0, i + 1)
  {
    hide Under, Shaped, Drops, NoneBack;
    var w := u.(t := Put(u.t, a, i, x));
    PutLoss(u, a, i, x);
    var d := g.(made := false, loses := u.t[a][i].Table?);
    assert Leaves(u, w, a, d);
    LeavesThen(s, u, w, a, i0, i, i + 1, g, d);
    AmongStep(s.t, a, i0, i);
    LeavesSame(s, w, a, After(g, d), e);
  }

  lemma LeavesSame(s: State, w: State, a: nat, d: Trip, e: Trip)
    requires Leaves(s, w, a, d) && e.made == d.made && e.loses == d.loses
    ensures Leaves(s, w, a, e)
  {
  }

  lemma AmongStep(t: Tables, a: nat, i0: nat, i: nat)
    requires i0 <= i
    ensures TableAmong(t, Some(a), i0, i + 1) <==> TableAmong(t, Some(a), i0, i) || SlotAt(t, Some(a), i).Table?
  {
    hide SlotAt;
    if TableAmong(t, Some(a), i0, i) {
      var x: nat :| i0 <= x < i && SlotAt(t, Some(a), x).Table?;
      assert i0 <= x < i + 1;
    }
    if SlotAt(t, Some(a), i).Table? { assert i0 <= i < i + 1; }
  }

  /** The table below slot `i` was worked on. */
  lemma LiftedLeaves(s: State, s': State, a: nat, base: nat, n: nat, i: nat, c: nat, d: Trip)
    requires SoundState(s) && SoundState(s') && a in s.t && s.place[a].level == n && s.place[a].base == base &&
      i < ENTRIES
    requires |s.t[a]| == ENTRIES && s.t[a][i] == Table(c) && a in s'.t && s'.t[a] == s.t[a] && Leaves(s, s', c, d)
    requires AreaFrame(s, s', n, base, base + Span(n + 1))
    requires Elsewhere(s.t, s'.t, a, base, n, Child(base, n, i), Child(base, n, i + 1))
    ensures Leaves(s, s', a, d.(made := false)) && KeptSlots(s.t[a], s'.t[a], i, i + 1)
  {
    hide Loss, HungNew, KeptSlots, Elsewhere, Child, Span, RangeIn;
    LiftedLoss(s, s', a, base, n, i, c, d.loses);
    SameSlots(s.t[a], i, i + 1);
  }

  /** The new table was filled in `u` and hung. */
  lemma HungLeaves(s: State, s1: State, u: State, a: nat, base: nat, n: nat, i: nat, c: nat, d: Trip)
    requires SoundState(s) && SoundState(s1) && SoundState(u) && a in s.t && s.place[a].level == n > 0 &&
      s.place[a].base == base && i < ENTRIES
    requires |s.t[a]| == ENTRIES && s.t[a][i].Invalid? && c in s.frames &&
      s1 == Made(s, c, Place(n - 1, Child(base, n, i), a), EMPTY)
    requires a in u.t && u.t[a] == s.t[a] && c in u.t && u.place[c].level == n - 1 && SoundState(Hung(u, a, i, c))
    requires AreaFrame(s, u, n, base, base + Span(n + 1))
    requires Elsewhere(s.t, Hung(u, a, i, c).t, a, base, n, Child(base, n, i), Child(base, n, i + 1)) &&
      Leaves(s1, u, c, d)
    ensures Leaves(s, Hung(u, a, i, c), a, d.(made := true)) && KeptSlots(s.t[a], Hung(u, a, i, c).t[a], i, i + 1)
  {
    hide Loss, Elsewhere, Child, Span, RangeIn, Based, SlotOk;
    assert s1.t.Keys == s.t.Keys + {c} && s1.t[c] == EMPTY;
    HungLoss(s, s1, u, a, base, n, i, c, d.loses);
    assert Hung(u, a, i, c).t[a][i].Table?;
  }

  /** The new table could not be filled and is given back. */
  lemma BackLeaves(s: State, s1: State, u: State, w: State, a: nat, base: nat, n: nat, i: nat, c: nat, d: Trip)
    requires SoundState(s) && SoundState(s1) && SoundState(u) && SoundState(w) && a in s.t &&
      s.place[a].level == n > 0 && s.place[a].base == base && i < ENTRIES
    requires |s.t[a]| == ENTRIES && s.t[a][i].Invalid? && c in s.frames &&
      s1 == Made(s, c, Place(n - 1, Child(base, n, i), a), EMPTY)
    requires c in u.t && a in w.t && w.t[a] == s.t[a] && w.t.Keys == u.t.Keys - {c} &&
      AreaFrame(s, w, n, base, base + Span(n + 1))
    requires Elsewhere(s.t, w.t, a, base, n, Child(base, n, i), Child(base, n, i + 1)) && Leaves(s1, u, c, d)
    ensures Leaves(s, w, a, d.(made := false, loses := d.made || d.loses)) && KeptSlots(s.t[a], w.t[a], i, i + 1)
  {
    hide Loss, Elsewhere, Child, Span, RangeIn, Based, SlotOk, HungNew;
    assert s1.t.Keys == s.t.Keys + {c} && s1.t[c] == EMPTY;
    BackLoss(s, s1, u, w, a, base, n, i, c, d.made, d.loses);
    SameSlots(s.t[a], i, i + 1);
  }

  lemma FreshSlot(s: State, s1: State, a: nat, n: nat, i: nat, c: nat, p: Place, j: Job)
    requires n > 0 && a in s.t && i < |s.t[a]| && s.t[a][i].Invalid? && c in s.frames && |s.frames| > 1 &&
      s1 == Made(s, c, p, EMPTY)
    ensures |s1.frames| == |s.frames| - 1
    ensures var d := Forecast(s1.t, Some(c), n - 1, j, |s1.frames|, false);
      ForecastSlot(s.t, Some(a), n, i, j, |s.frames|, false) ==
        if d.end.Through? then d.(made := true) else d.(made := false, loses := d.made || d.loses)
  {
    hide Forecast;
    assert s1.t[c] == EMPTY;
    FreshForecast(s1.t, c, n - 1, j, |s1.frames|, false);
  }

  /** From the root the lost tables are the ones that are lost at all. */
  lemma LossAtRoot(s: State, s': State, root: nat, loses: bool)
    requires Loss(s, s', root, loses) && s.t.Keys <= s'.t.Keys
    ensures Lost(s.t, s.place, root) <= Lost(s'.t, s'.place, root)
    ensures Lost(s'.t, s'.place, root) != Lost(s.t, s.place, root) <==> loses
  {
    hide Hangs;
    if loses { var b :| Drops(s, s', root, b); assert b in Lost(s'.t, s'.place, root); }
    if Lost(s'.t, s'.place, root) != Lost(s.t, s.place, root) {
      var b :| b in Lost(s'.t, s'.place, root) && b !in Lost(s.t, s.place, root);
      assert Drops(s, s', root, b);
    }
  }
}
