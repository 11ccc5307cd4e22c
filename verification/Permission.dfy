/** change_memory_permission (src/arch/aarch64/paging/mod.rs): the descriptor that maps a page, whatever its level. */
module Permission {
  import opened Collections
  import opened Radix
  import opened PageTable
  import opened TablePaths
  import opened Paging

  /** A write to a slot of `b` keeps the way to `b`. */
  lemma {:induction false} LeadsPut(t: Tables, place: map<nat, Place>, a: nat, vp: nat, b: nat, m: nat, i: nat, s: Slot)
    requires Shaped(t, place) && a in t && At(place, a, vp) && LeadsTo(t, a, place[a].level, vp, b, m)
    requires b in t && place[b].level == m && i < ENTRIES
    ensures LeadsTo(Put(t, b, i, s), a, place[a].level, vp, b, m)
    decreases place[a].level
  {
    hide Index, Covers, Child, Based, Span;
    if place[a].level > m {
      ChildAt(t, place, a, vp);
      LeadsPut(t, place, t[a][Index(vp, place[a].level)].addr, vp, b, m, i, s);
    }
  }

  /** The pages that the same descriptor maps. */
  predicate SameBlock(vp: nat, vq: nat, m: nat) { vp / Span(m) == vq / Span(m) }

  lemma SlotIsBlock(base: nat, m: nat, vp: nat, vq: nat)
    requires Based(base, m) && Covers(base, m, vp) && Covers(base, m, vq)
    ensures Index(vp, m) == Index(vq, m) <==> SameBlock(vp, vq, m)
  {
    hide Index, Span, Based;
    SlotOfPage(base, m, vp);
    SlotOfPage(base, m, vq);
    BlockNumber(base, m, vp, Index(vp, m));
    BlockNumber(base, m, vq, Index(vq, m));
  }

  /** The first page of a slot is the block number times the span. */
  lemma ChildNumber(base: nat, m: nat, i: nat)
    requires Based(base, m)
    ensures Child(base, m, i) == ((base / Span(m + 1)) * 512 + i) * Span(m)
  {
    Regroup(base / Span(m + 1), i, Span(m));
  }

  lemma BlockNumber(base: nat, m: nat, vp: nat, i: nat)
    requires Based(base, m) && Child(base, m, i) <= vp < Child(base, m, i + 1)
    ensures vp / Span(m) == (base / Span(m + 1)) * 512 + i
  {
    hide Span, Based, Child;
    ChildNumber(base, m, i);
    ChildNumber(base, m, i + 1);
    DivOf(vp, Span(m), (base / Span(m + 1)) * 512 + i);
  }

  lemma Bounds(x: nat, s: nat)
    requires s > 0
    ensures (x / s) * s <= x < (x / s + 1) * s
  {
    var k, r := Split(x, s);
    assert (k + 1) * s == k * s + s;
    DivOf(x, s, k);
  }

  lemma SameBlockInTable(base: nat, m: nat, vp: nat, vq: nat)
    requires Based(base, m) && Covers(base, m, vp) && SameBlock(vp, vq, m)
    ensures Covers(base, m, vq)
  {
    hide Index, Span, Based, Child;
    SlotOfPage(base, m, vp);
    var i := Index(vp, m);
    BlockNumber(base, m, vp, i);
    Bounds(vq, Span(m));
    ChildNumber(base, m, i);
    ChildNumber(base, m, i + 1);
    ChildStep(base, m, i);
    ChildMono(base, m, 0, i);
    ChildMono(base, m, i + 1, ENTRIES);
  }

  /** Changing the attributes of a leaf changes them for exactly the pages that it maps. */
  lemma PutLeafWalk(t: Tables, place: map<nat, Place>, a: nat, vp: nat, b: nat, m: nat, frame: nat, was: Attr,
                    attr: Attr, vq: nat)
    requires Shaped(t, place) && a in t && At(place, a, vp) && At(place, a, vq) &&
      LeadsTo(t, a, place[a].level, vp, b, m)
    requires b in t && |t[b]| == ENTRIES && t[b][Index(vp, m)] == Leaf(frame, was)
    ensures var t' := Put(t, b, Index(vp, m), Leaf(frame, attr));
      Walk(t', a, place[a].level, vq) ==
        if SameBlock(vp, vq, m) then Some(Mapping(frame + vq % Span(m), attr)) else Walk(t, a, place[a].level, vq)
    ensures SameBlock(vp, vq, m) ==> Walk(t, a, place[a].level, vq) == Some(Mapping(frame + vq % Span(m), was))
  {
    hide Index, Child, Span, Covers, SameBlock, LeadsTo, Shaped, Based, Walk;
    var leaf := Leaf(frame, attr);
    var t' := Put(t, b, Index(vp, m), leaf);
    LeadsPlace(t, place, a, vp, b, m);
    TableFacts(t, place, b);
    TableFacts(t, place, a);
    if At(place, b, vq) {
      SlotIsBlock(place[b].base, m, vp, vq);
      ThroughTable(t, place, a, vp, b, m, Index(vp, m), leaf, vq);
      if Index(vq, m) != Index(vp, m) {
        BesideSlot(t, place, b, m, Index(vp, m), leaf, vq);
      } else {
        LeafWalk(t, b, m, vq);
        LeafWalk(t', b, m, vq);
      }
    } else {
      if SameBlock(vp, vq, m) { SameBlockInTable(place[b].base, m, vp, vq); }
      BesideTable(t, place, a, b, Index(vp, m), leaf, vq);
    }
  }

  lemma LeafWalk(t: Tables, b: nat, m: nat, vq: nat)
    requires b in t && |t[b]| == ENTRIES && t[b][Index(vq, m)].Leaf?
    ensures Walk(t, b, m, vq) == Some(Mapping(t[b][Index(vq, m)].frame + vq % Span(m), t[b][Index(vq, m)].attr))
  {
    hide Index, Span;
  }

  lemma ThroughTable(t: Tables, place: map<nat, Place>, a: nat, vp: nat, b: nat, m: nat, i: nat, s: Slot, vq: nat)
    requires Shaped(t, place) && a in t && At(place, a, vp) && LeadsTo(t, a, place[a].level, vp, b, m)
    requires b in t && place[b].level == m && At(place, b, vq) && i < ENTRIES && |t[b]| == ENTRIES
    ensures Walk(t, a, place[a].level, vq) == Walk(t, b, m, vq)
    ensures Walk(Put(t, b, i, s), a, place[a].level, vq) == Walk(Put(t, b, i, s), b, m, vq)
  {
    hide Index, Child, Span, Covers, LeadsTo, Shaped, Based, Walk;
    TableFacts(t, place, a);
    LeadsAll(t, place, a, vp, b, m, vq);
    LeadsWalk(t, a, place[a].level, vq, b, m);
    LeadsPut(t, place, a, vq, b, m, i, s);
    LeadsWalk(Put(t, b, i, s), a, place[a].level, vq, b, m);
  }

  lemma BesideTable(t: Tables, place: map<nat, Place>, a: nat, b: nat, i: nat, s: Slot, vq: nat)
    requires Shaped(t, place) && a in t && b in t && At(place, a, vq) && !At(place, b, vq) && i < ENTRIES
    ensures |t[b]| == ENTRIES && Walk(Put(t, b, i, s), a, place[a].level, vq) == Walk(t, a, place[a].level, vq)
  {
    hide Index, Child, Span, Covers, Based;
    WalkSame(t, Put(t, b, i, s), place, a, vq);
  }

  lemma BesideSlot(t: Tables, place: map<nat, Place>, b: nat, m: nat, i: nat, s: Slot, vq: nat)
    requires Shaped(t, place) && b in t && place[b].level == m && At(place, b, vq) && i < ENTRIES && Index(vq, m) != i
    ensures Walk(Put(t, b, i, s), b, m, vq) == Walk(t, b, m, vq)
  {
    hide Index, Child, Span, Covers, Based;
    WalkSame(t, Put(t, b, i, s), place, b, vq);
  }

  /** _get_target_descriptor: the table and level of the descriptor that maps the page, or that could at level 0. */
  method GetTarget(pm: PageManager, a: nat, n: nat, vp: nat) returns (r: Option<(nat, nat)>)
    requires pm.Sound() && a in pm.tables && pm.place[a].level == n && At(pm.place, a, vp)
    ensures r.Some? ==> r.value.1 <= n && LeadsTo(pm.tables, a, n, vp, r.value.0, r.value.1)
    ensures r.Some? ==> r.value.0 in pm.tables && |pm.tables[r.value.0]| == ENTRIES
    ensures r.Some? && r.value.1 > 0 ==> pm.tables[r.value.0][Index(vp, r.value.1)].Leaf?
    ensures r.None? <==> Walk(pm.tables, a, n, vp) == None && Blocked(pm.tables, a, n, vp, true)
    decreases n
  {
    hide Index, Child, Based, Covers, Span, Shaped;
    TableFacts(pm.tables, pm.place, a);
    if n == 0 {
      return Some((a, 0));
    }
    match pm.tables[a][Index(vp, n)] {
      case Leaf(_, _) => return Some((a, n));
      case Table(c) =>
        ChildAt(pm.tables, pm.place, a, vp);
        r := GetTarget(pm, c, n - 1, vp);
      case Invalid => return None;
    }
  }

  function WithPermission(m: Mapping, attr: Attr): Mapping {
    Mapping(m.frame, Attr(attr.writable, attr.executable, attr.user, m.attr.device))
  }

  /** Exactly the pages of the descriptor of `vp`, of level `m`, got the permission; frames and memory type stay. */
  ghost predicate Repainted(t: Tables, t': Tables, root: nat, top: nat, vp: nat, attr: Attr, m: nat) {
    forall vq: nat :: Covers(0, top, vq) ==>
      if SameBlock(vp, vq, m)
      then Walk(t, root, top, vq).Some? &&
        Walk(t', root, top, vq) == Some(WithPermission(Walk(t, root, top, vq).value, attr))
      else Walk(t', root, top, vq) == Walk(t, root, top, vq)
  }

  lemma LeafRepainted(t: Tables, place: map<nat, Place>, root: nat, top: nat, vp: nat, b: nat, m: nat, frame: nat,
                      was: Attr, attr: Attr)
    requires Shaped(t, place) && root in t && place[root].level == top && place[root].base == 0 && Covers(0, top, vp)
    requires LeadsTo(t, root, top, vp, b, m) && b in t && |t[b]| == ENTRIES && t[b][Index(vp, m)] == Leaf(frame, was)
    ensures var leaf := Leaf(frame, Attr(attr.writable, attr.executable, attr.user, was.device));
      Repainted(t, Put(t, b, Index(vp, m), leaf), root, top, vp, attr, m)
  {
    hide Index, Child, Span, Covers, Shaped, SameBlock, Walk, LeadsTo;
    var attr' := Attr(attr.writable, attr.executable, attr.user, was.device);
    forall vq: nat | Covers(0, top, vq)
      ensures Walk(Put(t, b, Index(vp, m), Leaf(frame, attr')), root, top, vq) ==
        if SameBlock(vp, vq, m) then Some(Mapping(frame + vq % Span(m), attr')) else Walk(t, root, top, vq)
      ensures SameBlock(vp, vq, m) ==> Walk(t, root, top, vq) == Some(Mapping(frame + vq % Span(m), was))
    {
      PutLeafWalk(t, place, root, vp, b, m, frame, was, attr', vq);
    }
  }

  /** One page table, with page 0 in it: neither page 1 nor page 512 is mapped, and only page 512 is an error. */
  lemma UnmappedUnnoticed(attr: Attr)
    ensures var t := map[5 := EMPTY[0 := Table(6)], 6 := EMPTY[0 := Leaf(7, attr)]];
      && Walk(t, 5, 1, 0).Some? && Walk(t, 5, 1, 1).None? && Walk(t, 5, 1, 512).None?
      && !Blocked(t, 5, 1, 1, true) && Blocked(t, 5, 1, 512, true)
  {
    var t := map[5 := EMPTY[0 := Table(6)], 6 := EMPTY[0 := Leaf(7, attr)]];
    assert Index(0, 1) == 0 && Index(1, 1) == 0 && Index(512, 1) == 1;
    assert Index(0, 0) == 0 && Index(1, 0) == 1;
    assert t[5][1] == Invalid && t[6][1] == Invalid;
  }

  /** change_memory_permission: the frames stay, and exactly the pages of the same descriptor get the permission. A page
      that is not mapped is an error only if a table is missing on its path: an invalid page descriptor goes
      unnoticed. */
  method ChangeMemoryPermission(pm: PageManager, virtual: nat, attr: Attr)
    returns (err: Option<PagingError>, ghost level: nat)
    requires pm.Valid() && Covers(0, pm.top, virtual / PAGE)
    modifies pm`tables
    ensures pm.Valid() && pm.tables.Keys == old(pm.tables.Keys) && pm.LostTables() == old(pm.LostTables())
    ensures err == Some(AddressIsNotAligned) <==> virtual % PAGE != 0
    ensures err.Some? ==> pm.Now() == old(pm.Now()) && (err.value.AddressIsNotAligned? || err.value.EntryIsNotFound?)
    ensures err == Some(EntryIsNotFound) <==>
      && virtual % PAGE == 0 && old(pm.Translate(virtual / PAGE)).None?
      && Blocked(old(pm.tables), pm.root, pm.top, virtual / PAGE, true)
    ensures virtual % PAGE == 0 && old(pm.Translate(virtual / PAGE)).Some? ==>
      err == None && Repainted(old(pm.tables), pm.tables, pm.root, pm.top, virtual / PAGE, attr, level)
    ensures old(pm.Translate(virtual / PAGE)).None? ==> pm.Now() == old(pm.Now())
  {
    hide Index, Child, Based, Covers, Span, Shaped, Walk, LeadsTo, Repainted, Lost, Blocked;
    level := 0;
    if virtual % PAGE != 0 {
      return Some(AddressIsNotAligned), level;
    }
    var vp := virtual / PAGE;
    var r := GetTarget(pm, pm.root, pm.top, vp);
    if r.None? {
      return Some(EntryIsNotFound), level;
    }
    var b, m := r.value.0, r.value.1;
    level := m;
    LeafOrNone(pm.tables, pm.root, pm.top, vp, b, m);
    match pm.tables[b][Index(vp, m)] {
      case Leaf(frame, was) =>
        var leaf := Leaf(frame, Attr(attr.writable, attr.executable, attr.user, was.device));
        PutShaped(pm.tables, pm.place, b, Index(vp, m), leaf);
        PutLost(pm.tables, pm.place, pm.root, b, Index(vp, m), leaf);
        LeafRepainted(pm.tables, pm.place, pm.root, pm.top, vp, b, m, frame, was, attr);
        pm.tables := Put(pm.tables, b, Index(vp, m), leaf);
      case Invalid =>
      case Table(_) =>
    }
    return None, level;
  }

  lemma LeafOrNone(t: Tables, a: nat, n: nat, vp: nat, b: nat, m: nat)
    requires LeadsTo(t, a, n, vp, b, m) && b in t && |t[b]| == ENTRIES && (m > 0 ==> t[b][Index(vp, m)].Leaf?)
    ensures t[b][Index(vp, m)].Leaf? <==> Walk(t, a, n, vp).Some?
  {
    hide Index, Span;
    LeadsWalk(t, a, n, vp, b, m);
  }
}
