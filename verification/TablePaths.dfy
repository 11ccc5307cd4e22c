/** Which tables the walks from a table can come to (src/arch/aarch64/paging/mod.rs): a table that no walk from the
    root comes to is lost. */
module TablePaths {
  import opened Radix
  import opened PageTable

  /** The walk of `vp` from `a` goes down to table `b`, of level `m`. */
  ghost predicate LeadsTo(t: Tables, a: nat, n: nat, vp: nat, b: nat, m: nat)
    decreases n
  {
    && a in t && |t[a]| == ENTRIES
    && if n == m then a == b
       else n > m && t[a][Index(vp, n)].Table? && LeadsTo(t, t[a][Index(vp, n)].addr, n - 1, vp, b, m)
  }

  lemma {:induction false} LeadsPlace(t: Tables, place: map<nat, Place>, a: nat, vp: nat, b: nat, m: nat)
    requires Shaped(t, place) && a in t && At(place, a, vp) && LeadsTo(t, a, place[a].level, vp, b, m)
    ensures b in t && place[b].level == m && At(place, b, vp)
    ensures place[a].base <= place[b].base && place[b].base + Span(m + 1) <= place[a].base + Span(place[a].level + 1)
    decreases place[a].level
  {
    hide Index, Based, Child, Span;
    var n := place[a].level;
    if n > m {
      var i := Index(vp, n);
      ChildAt(t, place, a, vp);
      assert SlotOk(t, place, a, i);
      LeadsPlace(t, place, t[a][i].addr, vp, b, m);
      ChildStep(place[a].base, n, i);
      ChildMono(place[a].base, n, 0, i);
      ChildMono(place[a].base, n, i + 1, ENTRIES);
    }
  }

  /** Every page of that table is reached through it. */
  lemma {:induction false} LeadsAll(t: Tables, place: map<nat, Place>, a: nat, vp: nat, b: nat, m: nat, vq: nat)
    requires Shaped(t, place) && a in t && At(place, a, vp) && LeadsTo(t, a, place[a].level, vp, b, m)
    requires b in t && At(place, b, vq)
    ensures At(place, a, vq) && LeadsTo(t, a, place[a].level, vq, b, m)
    decreases place[a].level
  {
    hide Index, Based, Child, Span;
    var n := place[a].level;
    LeadsPlace(t, place, a, vp, b, m);
    if n > m {
      var i := Index(vp, n);
      var c := t[a][i].addr;
      ChildAt(t, place, a, vp);
      assert SlotOk(t, place, a, i);
      LeadsPlace(t, place, c, vp, b, m);
      LeadsAll(t, place, c, vp, b, m, vq);
      ChildStep(place[a].base, n, i);
      SlotUnique(place[a].base, n, vq, i);
    }
  }

  lemma {:induction false} LeadsWalk(t: Tables, a: nat, n: nat, vp: nat, b: nat, m: nat)
    requires LeadsTo(t, a, n, vp, b, m)
    ensures Walk(t, a, n, vp) == Walk(t, b, m, vp)
    decreases n
  {
    hide Index, Span;
    if n > m { LeadsWalk(t, t[a][Index(vp, n)].addr, n - 1, vp, b, m); }
  }

  // ---------------------------------------------------------------- tables below a table

  /** Table `b` hangs below table `a`: the walk of its first page comes to it. */
  ghost predicate Hangs(t: Tables, place: map<nat, Place>, a: nat, b: nat) {
    && a in place && b in place && At(place, a, place[b].base)
    && LeadsTo(t, a, place[a].level, place[b].base, b, place[b].level)
  }

  /** The tables that no walk from `root` comes to. */
  ghost function Lost(t: Tables, place: map<nat, Place>, root: nat): set<nat> {
    set b | b in t && !Hangs(t, place, root, b)
  }

  lemma SelfHangs(t: Tables, place: map<nat, Place>, a: nat)
    requires a in t && a in place && |t[a]| == ENTRIES
    ensures Hangs(t, place, a, a)
  {
  }

  /** What hangs below the child in slot `i` hangs below `a`, and covers pages of that slot. */
  lemma HangsUp(t: Tables, place: map<nat, Place>, a: nat, i: nat, b: nat)
    requires Shaped(t, place) && a in t && i < ENTRIES && t[a][i].Table? && Hangs(t, place, t[a][i].addr, b)
    ensures Hangs(t, place, a, b) && Index(place[b].base, place[a].level) == i && b != a
  {
    hide Index, Based, Child, Span;
    var n, base, c := place[a].level, place[a].base, t[a][i].addr;
    assert SlotOk(t, place, a, i);
    LeadsPlace(t, place, c, place[b].base, b, place[b].level);
    ChildStep(base, n, i);
    SlotUnique(base, n, place[b].base, i);
  }

  /** What hangs below `a` is `a` itself or hangs below the child in its slot. */
  lemma HangsDown(t: Tables, place: map<nat, Place>, a: nat, b: nat)
    requires Shaped(t, place) && a in t && Hangs(t, place, a, b) && b != a
    ensures var s := t[a][Index(place[b].base, place[a].level)];
      place[a].level > 0 && s.Table? && s.addr in t && place[s.addr].level == place[a].level - 1 &&
        Hangs(t, place, s.addr, b)
  {
    hide Index, Based, Child, Span, Covers;
    ChildAt(t, place, a, place[b].base);
  }

  /** The tables in the slots of a table that hangs below `a` hang below `a`. */
  lemma {:induction false} HangsOn(t: Tables, place: map<nat, Place>, a: nat, b: nat, i: nat)
    requires Shaped(t, place) && a in t && Hangs(t, place, a, b) && b in t && i < ENTRIES && t[b][i].Table?
    ensures Hangs(t, place, a, t[b][i].addr)
    decreases place[a].level
  {
    hide Index, Based, Child, Span, Covers;
    var c := t[b][i].addr;
    assert SlotOk(t, place, b, i);
    SelfHangs(t, place, c);
    HangsUp(t, place, b, i, c);
    if a != b {
      HangsDown(t, place, a, b);
      var k := Index(place[b].base, place[a].level);
      HangsOn(t, place, t[a][k].addr, b, i);
      HangsUp(t, place, a, k, c);
    }
  }

  // ---------------------------------------------------------------- what keeps the ways

  lemma {:induction false} SamePathLeads(t: Tables, t': Tables, a: nat, n: nat, vp: nat, b: nat, m: nat)
    requires SamePath(t, t', a, n, vp)
    ensures LeadsTo(t', a, n, vp, b, m) == LeadsTo(t, a, n, vp, b, m)
    decreases n
  {
    hide Index;
    if n > m && t[a][Index(vp, n)].Table? { SamePathLeads(t, t', t[a][Index(vp, n)].addr, n - 1, vp, b, m); }
  }

  lemma {:induction false} GrownLeads(t: Tables, t': Tables, a: nat, n: nat, vp: nat, b: nat, m: nat)
    requires Grown(t, t') && LeadsTo(t, a, n, vp, b, m)
    ensures LeadsTo(t', a, n, vp, b, m)
    decreases n
  {
    hide Index;
    if n > m {
      assert KeptSlot(t, t[a][Index(vp, n)], t'[a][Index(vp, n)]);
      GrownLeads(t, t', t[a][Index(vp, n)].addr, n - 1, vp, b, m);
    }
  }

  /** Replacing a slot that holds no table keeps every way. */
  lemma {:induction false} PutLeads(t: Tables, a: nat, n: nat, vp: nat, b: nat, m: nat, c: nat, i: nat, s: Slot)
    requires c in t && i < |t[c]| && !t[c][i].Table? && LeadsTo(t, a, n, vp, b, m)
    ensures LeadsTo(Put(t, c, i, s), a, n, vp, b, m)
    decreases n
  {
    hide Index;
    if n > m { PutLeads(t, t[a][Index(vp, n)].addr, n - 1, vp, b, m, c, i, s); }
  }

  /** From a new table the walks come to new tables only. */
  lemma {:induction false} NewLeads(t: Tables, t': Tables, a: nat, n: nat, vp: nat, b: nat, m: nat)
    requires Grown(t, t') && a !in t && LeadsTo(t', a, n, vp, b, m)
    ensures b !in t
    decreases n
  {
    hide Index;
    if n > m {
      assert KeptSlot(t, Invalid, t'[a][Index(vp, n)]);
      NewLeads(t, t', t'[a][Index(vp, n)].addr, n - 1, vp, b, m);
    }
  }

  lemma {:induction false} GrownLeadsBack(t: Tables, t': Tables, a: nat, n: nat, vp: nat, b: nat, m: nat)
    requires Grown(t, t') && LeadsTo(t', a, n, vp, b, m) && a in t && b in t && forall c :: c in t ==> |t[c]| == ENTRIES
    ensures LeadsTo(t, a, n, vp, b, m)
    decreases n
  {
    hide Index;
    if n > m {
      var c := t'[a][Index(vp, n)].addr;
      assert KeptSlot(t, t[a][Index(vp, n)], t'[a][Index(vp, n)]);
      if c in t { GrownLeadsBack(t, t', c, n - 1, vp, b, m); } else { NewLeads(t, t', c, n - 1, vp, b, m); }
    }
  }

  /** Taking an empty table out keeps the ways to the other tables. */
  lemma {:induction false} PrunedLeads(t: Tables, place: map<nat, Place>, a: nat, i: nat, c: nat, x: nat, n: nat,
                                       vp: nat, b: nat, m: nat)
    requires Shaped(t, place) && a in t && c in t && a != c && i < ENTRIES && t[a][i] == Table(c) && NoDescriptor(t, c)
    requires x != c && b != c && LeadsTo(t, x, n, vp, b, m)
    ensures LeadsTo(Pruned(t, a, i, c), x, n, vp, b, m)
    decreases n
  {
    hide Index, Based, Child;
    if n > m {
      var k := Index(vp, n);
      if t[x][k].addr != c { PrunedLeads(t, place, a, i, c, t[x][k].addr, n - 1, vp, b, m); }
    }
  }

  lemma {:induction false} PrunedLeadsBack(t: Tables, a: nat, i: nat, c: nat, x: nat, n: nat, vp: nat, b: nat, m: nat)
    requires a in t && i < |t[a]| && LeadsTo(Pruned(t, a, i, c), x, n, vp, b, m)
    ensures LeadsTo(t, x, n, vp, b, m)
    decreases n
  {
    hide Index;
    if n > m { PrunedLeadsBack(t, a, i, c, Pruned(t, a, i, c)[x][Index(vp, n)].addr, n - 1, vp, b, m); }
  }

  /** Exchanging descriptors that are no table descriptors loses no table. */
  lemma PutLost(t: Tables, place: map<nat, Place>, root: nat, c: nat, i: nat, s: Slot)
    requires c in t && i < |t[c]| && !t[c][i].Table? && !s.Table?
    ensures Lost(Put(t, c, i, s), place, root) == Lost(t, place, root)
  {
    hide LeadsTo;
    var t' := Put(t, c, i, s);
    assert t'[c][i := t[c][i]] == t[c];
    assert Put(t', c, i, t[c][i]) == t;
    forall b | b in t ensures Hangs(t', place, root, b) <==> Hangs(t, place, root, b) {
      if Hangs(t, place, root, b) { PutLeads(t, root, place[root].level, place[b].base, b, place[b].level, c, i, s); }
      if Hangs(t', place, root, b) {
        PutLeads(t', root, place[root].level, place[b].base, b, place[b].level, c, i, t[c][i]);
      }
    }
  }
}
