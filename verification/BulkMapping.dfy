/** The bulk path of the page manager (src/arch/aarch64/paging/mod.rs): `_associate_area` maps or unmaps a
    range with 1 GiB, 2 MiB and 4 KiB descriptors. */
module BulkMapping {
  import opened Collections
  import opened Radix
  import opened PageTable
  import opened TablePaths
  import opened Paging
  import opened Area
  import opened AreaPaths
  import opened AreaErased
  import opened AreaForecast
  import opened AreaLoss
  import opened AreaDone
  import opened AreaOpen

  // ---------------------------------------------------------------- what a call achieves

  lemma PagesFrame(s: State, s': State, a: nat, base: nat)
    requires a in s.t && a in s.place && s.place[a].level == 0 && s.place[a].base == base
    requires s'.t.Keys == s.t.Keys && s'.place == s.place && s'.frames == s.frames && forall b :: b in s.t && b != a ==>
      s'.t[b] == s.t[b]
    ensures AreaFrame(s, s', 0, base, base + Span(1))
  {
  }

  /** The level-3 loop of _associate_area. */
  method AreaPages(pm: PageManager, a: nat, j: Job, f: Fill) returns (rest: Job)
    requires pm.Sound() && a in pm.tables && pm.place[a].level == 0 && At(pm.place, a, j.v)
    modifies pm`tables
    ensures pm.Sound() && pm.tables.Keys == old(pm.tables.Keys)
    ensures AreaFrame(old(pm.Now()), pm.Now(), 0, pm.place[a].base, pm.place[a].base + Span(1))
    ensures rest == Advance(j, Reach(j, pm.place[a].base, 0))
    ensures Filled(old(pm.tables), pm.tables, a, pm.place[a].base, 0, f, j, Reach(j, pm.place[a].base, 0))
  {
    hide Index, Based, Child, Shaped, AreaFrame, Filled;
    PlaceOf(pm.Now(), a);
    ghost var base := pm.place[a].base;
    TableFacts(pm.tables, pm.place, a);
    PageIndex(base, j.v);
    var index := Index(j.v, 0);
    ghost var i0 := index;
    ghost var t := pm.tables;
    rest := j;
    while rest.size > 0 && index < ENTRIES
      invariant i0 <= index <= ENTRIES && index - i0 <= j.size && rest == Advance(j, index - i0)
      invariant pm.Sound() && a in pm.tables && pm.tables.Keys == t.Keys
      invariant forall b :: b in t && b != a ==> pm.tables[b] == t[b]
      invariant Written(t[a], pm.tables[a], i0, index - i0, f, j.p)
    {
      PutShaped(pm.tables, pm.place, a, index, SlotFor(f, rest.p));
      pm.tables := Put(pm.tables, a, index, SlotFor(f, rest.p));
      rest := Advance(rest, 1);
      index := index + 1;
    }
    WrittenFilled(t, pm.tables, a, base, f, j, index - i0);
    PagesFrame(old(pm.Now()), pm.Now(), a, base);
  }

  // ---------------------------------------------------------------- the block loop

  /** The block loop is at slot `i`: `g` tells what it has done so far, block descriptor by block descriptor. */
  ghost predicate BlocksSoFar(s: State, u: State, a: nat, base: nat, n: nat, f: Fill, j: Job, i0: nat, i: nat,
                              rest: Job, g: Trip) {
    && Ready(s, a, base, n, j, i0) && i0 <= i <= ENTRIES && Moved(j, rest)
    && Child(base, n, i) == Child(base, n, i0) + (rest.v - j.v)
    && SoundState(u) && s.t.Keys == u.t.Keys && s.place == u.place && s.frames == u.frames
    && AreaFrame(s, u, n, base, base + Span(n + 1))
    && Filled(s.t, u.t, a, base, n, f, Job(j.p, Child(base, n, i0), j.size), rest.v - j.v)
    && Elsewhere(s.t, u.t, a, base, n, Child(base, n, i0), Child(base, n, i))
    && KeptSlots(s.t[a], u.t[a], i0, i) && (!f.unmap ==> forall x :: i0 <= x < i ==> u.t[a][x].Leaf?)
    && Leaves(s, u, a, g) && g == Trip(Through, rest, |u.frames|, false, TableAmong(s.t, Some(a), i0, i))
  }

  lemma NoBlocksYet(s: State, a: nat, base: nat, n: nat, f: Fill, j: Job, i0: nat)
    requires Ready(s, a, base, n, j, i0)
    ensures BlocksSoFar(s, s, a, base, n, f, j, i0, i0, j,
                        Trip(Through, j, |s.frames|, false, TableAmong(s.t, Some(a), i0, i0)))
  {
    hide Walk, Span, Based, Child, Shaped, Filled, AreaFrame, Covers, Elsewhere, Leaves, TableAmong;
    ElsewhereRefl(s, a, base, n, Child(base, n, i0));
    FilledNone(s.t, a, base, n, f, Job(j.p, Child(base, n, i0), j.size));
    AreaFrameRefl(s, n, base, base + Span(n + 1));
    SameSlots(s.t[a], i0, i0);
    NoneAmong(s.t, a, i0);
    LeavesNone(s, a, Trip(Through, j, |s.frames|, false, TableAmong(s.t, Some(a), i0, i0)));
  }

  /** One block descriptor more. */
  lemma BlockWritten(s: State, u: State, a: nat, base: nat, n: nat, f: Fill, j: Job, i0: nat, i: nat, rest: Job,
                     g: Trip)
    requires BlocksSoFar(s, u, a, base, n, f, j, i0, i, rest, g) && 0 < n && Span(n) <= rest.size && i < ENTRIES
    ensures a in u.t && |u.t[a]| == ENTRIES
    ensures BlocksSoFar(s, u.(t := Put(u.t, a, i, SlotFor(f, rest.p))), a, base, n, f, j, i0, i + 1,
                        Advance(rest, Span(n)),
                        Trip(Through, Advance(rest, Span(n)), |u.frames|, false, TableAmong(s.t, Some(a), i0, i + 1)))
  {
    hide Walk, Span, Based, Child, Shaped, Filled, AreaFrame, Covers, Elsewhere, Leaves, TableAmong;
    var b, k := Job(j.p, Child(base, n, i0), j.size), rest.v - j.v;
    TableFacts(u.t, u.place, a);
    ChildAligned(base, n, i);
    BlockFilled(u, a, n, i, f, Advance(b, k));
    PutElsewhere(u, a, n, base, i, SlotFor(f, rest.p));
    ChildStep(base, n, i);
    ChildMono(base, n, i0, i);
    var v := u.(t := Put(u.t, a, i, SlotFor(f, rest.p)));
    ElsewhereTrans(s.t, u.t, v.t, a, base, n, Child(base, n, i0), Child(base, n, i), Child(base, n, i + 1));
    FilledTrans(s.t, u.t, v.t, a, base, n, f, b, k, Span(n));
    AreaFrameTrans(s, u, v, n, base, base + Span(n + 1));
    BlockLeaves(s, u, a, i0, i, SlotFor(f, rest.p), g,
                Trip(Through, Advance(rest, Span(n)), |u.frames|, false, TableAmong(s.t, Some(a), i0, i + 1)));
  }

  lemma BlocksFinished(s: State, u: State, a: nat, base: nat, n: nat, f: Fill, j: Job, i0: nat, i: nat, rest: Job,
                       g: Trip)
    requires BlocksSoFar(s, u, a, base, n, f, j, i0, i, rest, g) && Blocky(j, n) && i0 < i
    ensures Done(s, u, a, base, n, f, j, i0, i, Nice(j, n), Ok(rest), g, Pages(Child(base, n, i0), Child(base, n, i)))
  {
    hide Span, Based, Nice, Child, Shaped, Filled, AreaFrame, Elsewhere, Leaves, KeptSlots, TableAmong, Done, Pages,
      Blocky;
    BlocksDone(s, u, a, base, n, f, j, i0, i, rest, g);
  }

  /** The inner loop of _associate_area: block descriptors as long as one fits. */
  method AreaBlocks(pm: PageManager, a: nat, n: nat, ghost base: nat, i0: nat, j: Job, f: Fill)
    returns (rest: Job, index: nat, ghost w: set<nat>)
    requires i0 < ENTRIES && Ready(pm.Now(), a, base, n, j, i0) && Blocky(j, n)
    modifies pm`tables
    ensures i0 < index <= ENTRIES && (index == ENTRIES || rest.size < Span(n)) && (rest, index) == BlockRun(j, n, i0)
    ensures Done(old(pm.Now()), pm.Now(), a, base, n, f, j, i0, index, Nice(j, n), Ok(rest),
                 Trip(Through, rest, |pm.frames|, false, TableAmong(old(pm.tables), Some(a), i0, index)), w)
    ensures pm.tables.Keys == old(pm.tables.Keys)
  {
    hide Span, Nice, Child, TableAmong, Done, BlocksSoFar, Ready, Pages;
    rest, index := j, i0;
    ghost var g := Trip(Through, j, |pm.frames|, false, TableAmong(pm.tables, Some(a), i0, i0));
    NoBlocksYet(pm.Now(), a, base, n, f, j, i0);
    while rest.size > 0 && index < ENTRIES && rest.size >= Span(n)
      invariant i0 <= index <= ENTRIES && (index == i0 ==> rest == j) && BlockRun(rest, n, index) == BlockRun(j, n, i0)
      invariant pm.tables.Keys == old(pm.tables.Keys)
      invariant g == Trip(Through, rest, |pm.frames|, false, TableAmong(old(pm.tables), Some(a), i0, index))
      invariant BlocksSoFar(old(pm.Now()), pm.Now(), a, base, n, f, j, i0, index, rest, g)
      decreases ENTRIES - index
    {
      BlockWritten(old(pm.Now()), pm.Now(), a, base, n, f, j, i0, index, rest, g);
      pm.tables := Put(pm.tables, a, index, SlotFor(f, rest.p));
      rest := Advance(rest, Span(n));
      index := index + 1;
      g := Trip(Through, rest, |pm.frames|, false, TableAmong(old(pm.tables), Some(a), i0, index));
    }
    w := Pages(Child(base, n, i0), Child(base, n, index));
    BlocksFinished(old(pm.Now()), pm.Now(), a, base, n, f, j, i0, index, rest, g);
  }

  // ---------------------------------------------------------------- the recursion

  /** _associate_area. */
  method AssociateAreaRec(pm: PageManager, a: nat, n: nat, ghost base: nat, j: Job, f: Fill)
    returns (r: Result<Job>, ghost w: set<nat>)
    requires pm.Sound() && a in pm.tables && pm.place[a].level == n && pm.place[a].base == base && Covers(base, n, j.v)
    modifies pm`tables, pm`frames, pm`place, pm`spent
    ensures Done(old(pm.Now()), pm.Now(), a, base, n, f, j, 0, ENTRIES, Nice(j, n), r,
                 Forecast(old(pm.tables), Some(a), n, j, |old(pm.frames)|, f.unmap), w)
    ensures pm.Sound() && Accounted(old(pm.Held()), pm.Held()) &&
      (r != Err(MemoryCacheRanOut) || pm.accepts ==> pm.spent == old(pm.spent))
    decreases n, 2
  {
    hide Walk, Span, Based, Nice, Child, Shaped, Covers, Index, Done, ForecastRounds, ForecastRound, Accounted,
      NextSlot, Ready, AreaFrame, Filled;
    AccountedRefl(pm.Held());
    ghost var s, plan := pm.Now(), Forecast(pm.tables, Some(a), n, j, |pm.frames|, f.unmap);
    if n == 0 {
      var rest := AreaPages(pm, a, j, f);
      PagesDone(s, pm.Now(), a, base, f, j, rest, plan);
      return Ok(rest), Pages(j.v, rest.v);
    }
    var index := Index(j.v, n);
    IsReady(s, a, base, n, j);
    ghost var i0 := index;
    var rest := j;
    ghost var g := Trip(Through, j, 0, false, false);
    w := {};
    while rest.size > 0 && index < ENTRIES
      invariant i0 <= index <= ENTRIES && pm.Sound() && Ready(s, a, base, n, j, i0)
      invariant index == i0 ==> rest == j && pm.Now() == s && !g.made && !g.loses && w == {}
      invariant index > i0 ==> Done(s, pm.Now(), a, base, n, f, j, i0, index, Nice(j, n), Ok(rest), g, w)
      invariant plan == After(g, ForecastRounds(s.t, Some(a), n, index, rest, |pm.frames|, f.unmap))
      invariant Accounted(old(pm.Held()), pm.Held()) && pm.spent == old(pm.spent)
      decreases ENTRIES - index
    {
      ghost var u, h := pm.Now(), pm.Held();
      if index > i0 { StillReady(s, u, a, base, n, f, j, i0, index, rest, g, w); }
      var next;
      ghost var y;
      r, next, y := AreaStep(pm, a, n, base, index, rest, f);
      AccountedTrans(old(pm.Held()), h, pm.Held());
      RoundDone(s, u, pm.Now(), a, base, n, f, j, i0, index, next, rest, r, g, w, y);
      g := After(g, ForecastRound(u.t, Some(a), n, index, rest, |u.frames|, f.unmap));
      w := if index > i0 then w + y else y;
      if r.Err? {
        DoneWhole(s, pm.Now(), a, base, n, f, j, i0, next, r, plan, w);
        return;
      }
      index, rest := next, r.value;
    }
    if index == i0 {
      NothingDone(s, a, base, n, f, j, i0, |s.frames|);
    } else {
      DoneEnds(s, pm.Now(), a, base, n, f, j, i0, index, Nice(j, n), Ok(rest), g, w);
      DoneWhole(s, pm.Now(), a, base, n, f, j, i0, index, Ok(rest), g, w);
    }
    NoRounds(s.t, a, n, index, rest, |pm.frames|, f.unmap);
    return Ok(rest), w;
  }

  lemma NoRounds(t: Tables, a: nat, n: nat, i: nat, j: Job, free: nat, unmap: bool)
    requires n > 0 && i <= ENTRIES && (j.size == 0 || i == ENTRIES)
    ensures ForecastRounds(t, Some(a), n, i, j, free, unmap) == Trip(Through, j, free, false, false)
  {
  }

  /** A round, after the rounds before it. */
  lemma RoundDone(s: State, u: State, v: State, a: nat, base: nat, n: nat, f: Fill, j: Job, i0: nat, i: nat, next: nat,
                  rest: Job, r: Result<Job>,
                  g: Trip, x: set<nat>, y: set<nat>)
    requires n > 0 && Ready(s, a, base, n, j, i0) && Ready(u, a, base, n, rest, i) && i0 <= i < next <= ENTRIES &&
      rest.size > 0
    requires i == i0 ==> rest == j && u == s && !g.made && !g.loses
    requires i > i0 ==> Done(s, u, a, base, n, f, j, i0, i, Nice(j, n), Ok(rest), g, x)
    requires var d := ForecastRound(u.t, Some(a), n, i, rest, |u.frames|, f.unmap);
      Done(u, v, a, base, n, f, rest, i, next, Nice(rest, n), r, d, y) && (r.Ok? ==> next == NextSlot(rest, n, i))
    ensures var d := ForecastRound(u.t, Some(a), n, i, rest, |u.frames|, f.unmap);
      && Done(s, v, a, base, n, f, j, i0, next, Nice(j, n), r, After(g, d), if i > i0 then x + y else y)
      && (r.Ok? ==>
            ForecastRounds(s.t, Some(a), n, i, rest, |u.frames|, f.unmap) ==
              After(d, ForecastRounds(s.t, Some(a), n, next, r.value, |v.frames|, f.unmap)))
      && (r.Err? ==> ForecastRounds(s.t, Some(a), n, i, rest, |u.frames|, f.unmap) == d)
  {
    hide Done, Nice, Child, Based, Shaped, ForecastRound, ForecastRounds, NextSlot, Elsewhere;
    var d := ForecastRound(u.t, Some(a), n, i, rest, |u.frames|, f.unmap);
    DoneEnds(u, v, a, base, n, f, rest, i, next, Nice(rest, n), r, d, y);
    if i > i0 {
      DoneThen(s, u, v, a, base, n, f, j, i0, i, next, rest, r, g, d, x, y);
      DoneElsewhere(s, u, a, base, n, f, j, i0, i, Nice(j, n), rest, g, x);
    } else {
      ElsewhereRefl(s, a, base, n, Child(base, n, i));
    }
    RoundsForecast(s, u, v, a, base, n, Child(base, n, i0), i, next, rest, f.unmap, r);
  }

  lemma DoneEnds(s: State, s': State, a: nat, base: nat, n: nat, f: Fill, j: Job, i: nat, next: nat, nice: bool,
                 r: Result<Job>, d: Trip, w: set<nat>)
    requires Done(s, s', a, base, n, f, j, i, next, nice, r, d, w)
    ensures SoundState(s') && Ends(r, s', d)
  {
  }

  lemma DoneElsewhere(s: State, s': State, a: nat, base: nat, n: nat, f: Fill, j: Job, i: nat, next: nat, nice: bool,
                      rest: Job, d: Trip, w: set<nat>)
    requires Done(s, s', a, base, n, f, j, i, next, nice, Ok(rest), d, w)
    ensures Elsewhere(s.t, s'.t, a, base, n, Child(base, n, i), Child(base, n, next))
  {
  }

  /** One round of the outer loop: block descriptors if they apply, then the table below the next slot. */
  method AreaStep(pm: PageManager, a: nat, n: nat, ghost base: nat, i0: nat, j: Job, f: Fill)
    returns (r: Result<Job>, next: nat, ghost w: set<nat>)
    requires n > 0 && i0 < ENTRIES && Ready(pm.Now(), a, base, n, j, i0) && j.size > 0
    modifies pm`tables, pm`frames, pm`place, pm`spent
    ensures i0 < next <= ENTRIES && (r.Ok? ==> next == NextSlot(j, n, i0))
    ensures Done(old(pm.Now()), pm.Now(), a, base, n, f, j, i0, next, Nice(j, n), r,
                 ForecastRound(old(pm.tables), Some(a), n, i0, j, |old(pm.frames)|, f.unmap), w)
    ensures pm.Sound() && Accounted(old(pm.Held()), pm.Held()) &&
      (r != Err(MemoryCacheRanOut) || pm.accepts ==> pm.spent == old(pm.spent))
    decreases n, 1
  {
    hide Span, Nice, Child, Shaped, Blocky, Done, ForecastRound, ForecastSlot, Accounted, BlockRun, TableAmong,
      NextSlot, Ready, Elsewhere;
    AccountedRefl(pm.Held());
    if Blocky(j, n) {
      var rest, index;
      rest, index, w := AreaBlocks(pm, a, n, base, i0, j, f);
      ghost var u := pm.Now();
      ghost var g := Trip(Through, rest, |pm.frames|, false, TableAmong(old(pm.tables), Some(a), i0, index));
      DoneEnds(old(pm.Now()), u, a, base, n, f, j, i0, index, Nice(j, n), Ok(rest), g, w);
      if rest.size == 0 || index == ENTRIES {
        OnlyBlocks(old(pm.tables), a, n, i0, index, j, rest, |pm.frames|, f.unmap);
        return Ok(rest), index, w;
      }
      StillReady(old(pm.Now()), u, a, base, n, f, j, i0, index, rest, g, w);
      TooSmall(rest, n);
      NotBlocky(rest, n);
      ghost var y;
      r, y := AreaDescend(pm, a, n, base, index, rest, f);
      next := index + 1;
      BlocksThen(old(pm.Now()), u, pm.Now(), a, base, n, f, j, i0, index, rest, r, w, y);
      w := w + y;
    } else {
      r, w := AreaDescend(pm, a, n, base, i0, j, f);
      next := i0 + 1;
      NotBlocky(j, n);
      NoBlocks(old(pm.tables), a, n, i0, j, |old(pm.frames)|, f.unmap);
    }
  }

  /** A round is its block descriptors and then the descent. */
  lemma BlocksThen(s: State, u: State, v: State, a: nat, base: nat, n: nat, f: Fill, j: Job, i0: nat, i: nat, rest: Job,
                   r: Result<Job>, x: set<nat>, y: set<nat>)
    requires n > 0 && Ready(s, a, base, n, j, i0) && i0 < i < ENTRIES && j.size > 0 && rest.size > 0 && Blocky(j, n) &&
      (rest, i) == BlockRun(j, n, i0) && u.frames == s.frames
    requires Done(s, u, a, base, n, f, j, i0, i, Nice(j, n), Ok(rest),
                  Trip(Through, rest, |u.frames|, false, TableAmong(s.t, Some(a), i0, i)), x)
    requires Done(u, v, a, base, n, f, rest, i, i + 1, Nice(rest, n), r,
                  ForecastSlot(u.t, Some(a), n, i, rest, |u.frames|, f.unmap), y)
    ensures Done(s, v, a, base, n, f, j, i0, i + 1, Nice(j, n), r,
                 ForecastRound(s.t, Some(a), n, i0, j, |s.frames|, f.unmap), x + y)
    ensures NextSlot(j, n, i0) == i + 1
  {
    hide Done, Nice, Child, Based, Shaped, ForecastRound, ForecastSlot, NextSlot, Elsewhere, Blocky, BlockRun,
      TableAmong;
    var g := Trip(Through, rest, |u.frames|, false, TableAmong(s.t, Some(a), i0, i));
    DoneElsewhere(s, u, a, base, n, f, j, i0, i, Nice(j, n), rest, g, x);
    BlocksForecast(s, u, a, base, n, i0, i, j, rest, f.unmap);
    DoneThen(s, u, v, a, base, n, f, j, i0, i, i + 1, rest, r, g,
             ForecastSlot(u.t, Some(a), n, i, rest, |u.frames|, f.unmap), x, y);
  }

  /** The rest of a round: the table below slot `index`, made if it is missing. */
  method AreaDescend(pm: PageManager, a: nat, n: nat, ghost base: nat, index: nat, j: Job, f: Fill)
    returns (r: Result<Job>, ghost w: set<nat>)
    requires n > 0 && Ready(pm.Now(), a, base, n, j, index) && j.size > 0 && !Blocky(j, n)
    modifies pm`tables, pm`frames, pm`place, pm`spent
    ensures Done(old(pm.Now()), pm.Now(), a, base, n, f, j, index, index + 1, Nice(j, n - 1), r,
                 ForecastSlot(old(pm.tables), Some(a), n, index, j, |old(pm.frames)|, f.unmap), w)
    ensures pm.Sound() && Accounted(old(pm.Held()), pm.Held()) &&
      (r != Err(MemoryCacheRanOut) || pm.accepts ==> pm.spent == old(pm.spent))
    decreases n, 0
  {
    hide Based, Nice, Child, Shaped, Blocky, Forecast, Accounted, Done;
    AccountedRefl(pm.Held());
    ghost var cb := Child(base, n, index);
    ChildStep(base, n, index);
    assert Covers(cb, n - 1, j.v);
    if pm.tables[a][index].Table? {
      var c := pm.tables[a][index].addr;
      SlotFacts(pm.tables, pm.place, a, index);
      r, w := AssociateAreaRec(pm, c, n - 1, cb, j, f);
      DoneBelow(old(pm.Now()), pm.Now(), a, base, n, f, j, index, c, r,
                Forecast(old(pm.tables), Some(c), n - 1, j, |old(pm.frames)|, f.unmap), w);
    } else if pm.tables[a][index].Leaf? || f.unmap {
      DoneStuck(pm.Now(), a, base, n, f, j, index, ForecastSlot(pm.tables, Some(a), n, index, j, |pm.frames|, f.unmap));
      return Err(EntryIsNotFound), {};
    } else {
      r := AreaMake(pm, a, n, base, index, j, f);
      w := {};
    }
  }

  /** The branch that makes a table, fills it and hangs it, or gives it back on an error. */
  method AreaMake(pm: PageManager, a: nat, n: nat, ghost base: nat, index: nat, j: Job, f: Fill)
    returns (r: Result<Job>)
    requires n > 0 && Ready(pm.Now(), a, base, n, j, index) && Covers(Child(base, n, index), n - 1, j.v) &&
      pm.tables[a][index].Invalid? && !f.unmap
    modifies pm`tables, pm`frames, pm`place, pm`spent
    ensures Done(old(pm.Now()), pm.Now(), a, base, n, f, j, index, index + 1, Nice(j, n - 1), r,
                 ForecastSlot(old(pm.tables), Some(a), n, index, j, |old(pm.frames)|, false), {})
    ensures pm.Sound() && Accounted(old(pm.Held()), pm.Held()) &&
      (r != Err(MemoryCacheRanOut) || pm.accepts ==> pm.spent == old(pm.spent))
    decreases n - 1, 4
  {
    hide Based, Nice, Child, Shaped, Covers, Span, EMPTY, Forecast, Accounted, Done;
    ghost var cb := Child(base, n, index);
    ChildBased(base, n, index);
    AccountedRefl(pm.Held());
    var made := pm.AllocPageTable(Place(n - 1, cb, a));
    if made.Err? {
      DoneShort(pm.Now(), a, base, n, f, j, index, ForecastSlot(pm.tables, Some(a), n, index, j, |pm.frames|, false));
      return Err(made.error);
    }
    var c := made.value;
    assert pm.Now() == Made(old(pm.Now()), c, Place(n - 1, cb, a), EMPTY);
    AccountedAlloc(old(pm.Held()), pm.Held(), c);
    r := FillNew(pm, a, n, base, index, j, f, c, old(pm.Now()), old(pm.Held()));
  }

  lemma AccountedAlloc(h: Holdings, h': Holdings, c: nat)
    requires c in h.free && h'.tables == h.tables + {c} && h'.free == h.free - {c} && h'.spent == h.spent
    ensures Accounted(h, h')
  {
  }

  /** The new table `c`, made in state `s`, is filled and then hung into its slot or given back, which may be refused.
      The tables already hung below a table that is given back are not given back. */
  method FillNew(pm: PageManager, a: nat, n: nat, ghost base: nat, index: nat, j: Job, f: Fill, c: nat, ghost s: State,
                 ghost h: Holdings) returns (r: Result<Job>)
    requires n > 0 && Ready(s, a, base, n, j, index) && Covers(Child(base, n, index), n - 1, j.v) &&
      s.t[a][index].Invalid? && !f.unmap
    requires c in s.frames && |s.frames| > 1 && pm.Sound() && Accounted(h, pm.Held())
    requires pm.Now() == Made(s, c, Place(n - 1, Child(base, n, index), a), EMPTY)
    modifies pm`tables, pm`frames, pm`place, pm`spent
    ensures Done(s, pm.Now(), a, base, n, f, j, index, index + 1, Nice(j, n - 1), r,
                 ForecastSlot(s.t, Some(a), n, index, j, |s.frames|, false), {})
    ensures pm.Sound() && Accounted(h, pm.Held()) &&
      (r != Err(MemoryCacheRanOut) || pm.accepts ==> pm.spent == old(pm.spent))
    decreases n - 1, 3
  {
    hide Based, Nice, Child, Shaped, Covers, Span, EMPTY, Forecast, ForecastSlot, Accounted, Done;
    ghost var s1, cb := pm.Now(), Child(base, n, index);
    FreshSlot(s, s1, a, n, index, c, Place(n - 1, cb, a), j);
    ghost var d := Forecast(pm.tables, Some(c), n - 1, j, |pm.frames|, false);
    ghost var w;
    r, w := AssociateAreaRec(pm, c, n - 1, cb, j, f);
    ghost var u := pm.Now();
    AccountedTrans(h, old(pm.Held()), pm.Held());
    DoneEnds(s1, u, c, cb, n - 1, f, j, 0, ENTRIES, Nice(j, n - 1), r, d, w);
    if r.Ok? {
      DoneNew(s, s1, u, a, base, n, f, j, index, c, r.value, d, w);
      pm.tables := Put(pm.tables, a, index, Table(c));
      assert pm.tables.Keys == u.t.Keys;
      DoneEnds(s, pm.Now(), a, base, n, f, j, index, index + 1, Nice(j, n - 1), r, d.(made := true), {});
    } else {
      NewRunsOut(s1, u, c, cb, n - 1, f, j, Nice(j, n - 1), r, d, w);
      GiveBack(pm, c, h);
      DoneBack(s, s1, u, pm.Now(), a, base, n, f, j, index, c, r.error, d, w);
      DoneEnds(s, pm.Now(), a, base, n, f, j, index, index + 1, Nice(j, n - 1), r,
               d.(made := false, loses := d.made || d.loses), {});
    }
  }

  /** The only error in a new table is that the frames run out. */
  lemma NewRunsOut(s: State, s': State, c: nat, cb: nat, n: nat, f: Fill, j: Job, nice: bool, r: Result<Job>, d: Trip,
                   w: set<nat>)
    requires Done(s, s', c, cb, n, f, j, 0, ENTRIES, nice, r, d, w) && c in s.t && s.t[c] == EMPTY && !f.unmap && r.Err?
    ensures c in s'.t && r.error.MemoryCacheRanOut?
  {
    hide AreaFrame, KeptSlots, Leaves, Nice, Child, Span, Shaped, EMPTY, InTheWay, StopsIn, Congruent, Unmaps, Ends;
    NothingInTheWay(s.t, c, cb, n, f, j);
  }

  /** The frame of the table `c` goes back to the physical memory manager, if it takes it. */
  method GiveBack(pm: PageManager, c: nat, ghost h: Holdings)
    requires c in pm.tables && pm.frames !! pm.tables.Keys && Accounted(h, pm.Held())
    modifies pm`tables, pm`frames, pm`place, pm`spent
    ensures Accounted(h, pm.Held()) && (pm.accepts ==> pm.spent == old(pm.spent))
    ensures pm.Now() == State(old(pm.tables) - {c}, old(pm.place) - {c}, old(pm.frames)) ||
            pm.Now() == State(old(pm.tables) - {c}, old(pm.place) - {c}, old(pm.frames) + {c})
  {
    hide Accounted;
    var freed := *;
    freed := freed || pm.accepts;
    AccountedPrune(h, pm.Held(), c, freed);
    pm.tables, pm.place := pm.tables - {c}, pm.place - {c};
    assert pm.tables.Keys == old(pm.tables.Keys) - {c};
    if freed {
      pm.frames := pm.frames + {c};
    } else {
      pm.spent := pm.spent + {c};
    }
  }

  // ---------------------------------------------------------------- the whole area

  /** `t'` maps the pages of the job as asked and every other page as `t` does. */
  ghost predicate Mapped(t: Tables, t': Tables, root: nat, top: nat, f: Fill, j: Job) {
    Filled(t, t', root, 0, top, f, j, j.size)
  }

  /** `t'` leaves the pages of the job without a translation and every other page as `t` does. */
  ghost predicate Unmapped(t: Tables, t': Tables, root: nat, top: nat, j: Job) {
    forall vp: nat :: Covers(0, top, vp) ==>
      Walk(t', root, top, vp) == if j.v <= vp < j.v + j.size then None else Walk(t, root, top, vp)
  }

  /** Unmapping what was mapped restores every translation if the range had none. */
  lemma MapThenUnmapRestores(t: Tables, u: Tables, w: Tables, root: nat, top: nat, attr: Attr, j: Job)
    requires Mapped(t, u, root, top, Fill(attr, false), j) && Unmapped(u, w, root, top, j)
    requires forall vp: nat :: Covers(0, top, vp) && j.v <= vp < j.v + j.size ==> Walk(t, root, top, vp) == None
    ensures SameWalks(w, t, root, 0, top)
  {
    hide Walk, Covers;
  }

  /** Two ways to the same mapping translate alike. */
  lemma MappedUnique(t: Tables, u: Tables, w: Tables, root: nat, top: nat, f: Fill, j: Job)
    requires Mapped(t, u, root, top, f, j) && Mapped(t, w, root, top, f, j)
    ensures SameWalks(u, w, root, 0, top)
  {
    hide Walk;
  }

  /** A mapping whose first block descriptor covers pages before the range is off by that many pages. */
  lemma NiceIff(t: Tables, t': Tables, root: nat, top: nat, f: Fill, j: Job, rest: Job)
    requires Covers(0, top, j.v) && rest.size == 0
    requires Stepped(t, t', root, 0, top, f, j, 0, Span(top + 1), Nice(j, top), rest)
    ensures rest.v == j.v + j.size
    ensures Nice(j, top) ==> Mapped(t, t', root, top, f, j) && j.v + j.size <= Span(top + 1)
    ensures !Nice(j, top) && !f.unmap ==> !Mapped(t, t', root, top, f, j) && OffBy(t', root, top, f.attr, j)
  {
    hide Walk, Span;
    if !Nice(j, top) { assert j.size > 0; }
  }

  /** The first page translates to a frame that is too high by the pages before it in its block. */
  ghost predicate OffBy(t': Tables, root: nat, top: nat, attr: Attr, j: Job) {
    exists m: nat ::
      m <= top && Blocky(j, m) && j.v % Span(m) > 0 &&
      Walk(t', root, top, j.v) == Some(Mapping(j.p + j.v % Span(m), attr))
  }

  /** Every page of the range translates. */
  ghost predicate AllMapped(t: Tables, root: nat, top: nat, j: Job) {
    j.v + j.size <= Span(top + 1) && forall vp: nat :: j.v <= vp < j.v + j.size ==> Walk(t, root, top, vp).Some?
  }

  /** Some page of the range translates as before. */
  ghost predicate SomeKept(t: Tables, t': Tables, root: nat, top: nat, j: Job) {
    exists vp: nat :: j.v <= vp < j.v + j.size && Walk(t', root, top, vp) == Walk(t, root, top, vp)
  }

  /** An unmap that is not aligned, or that does not get to the end, leaves a page of the range as it was. */
  lemma UnmapsSome(t: Tables, t': Tables, root: nat, top: nat, j: Job, r: Result<Job>, w: set<nat>)
    requires Unmaps(t, t', root, 0, top, 0, Span(top + 1), j, Nice(j, top), r, w) && j.v + j.size <= Span(top + 1)
    requires r.Err? || !Nice(j, top) || r.value.v < j.v + j.size
    requires r.Ok? ==> r.value.v <= j.v + j.size
    ensures SomeKept(t, t', root, top, j)
  {
    hide Walk, Nice;
    if r.Ok? && !Nice(j, top) { SomeStays(j, w); } else { FewerStays(j, w); }
    var vp: nat :| j.v <= vp < j.v + j.size && vp !in w;
    assert Covers(0, top, vp);
  }

  /** What the area call for these pages comes to; one page goes another way. */
  ghost function Plan(t: Tables, root: nat, top: nat, j: Job, free: nat, unmap: bool): Trip
  {
    if j.size == 1 then Trip(Through, j, free, false, false) else Forecast(t, Some(root), top, j, free, unmap)
  }

  /** associate_area. */
  method AssociateArea(pm: PageManager, physical: nat, virtual: nat, size: nat, attr: Attr)
    returns (err: Option<PagingError>)
    requires pm.Valid() && Covers(0, pm.top, virtual / PAGE)
    modifies pm`tables, pm`frames, pm`place, pm`spent
    ensures pm.Valid() && Accounted(old(pm.Books()), pm.Books()) && old(pm.LostTables()) <= pm.LostTables()
    ensures physical % PAGE == 0 && virtual % PAGE == 0 && size % PAGE == 0 ==>
      var plan := Plan(old(pm.tables), pm.root, pm.top, Job(physical / PAGE, virtual / PAGE, size / PAGE),
                       |old(pm.frames)|, false);
      && (pm.LostTables() != old(pm.LostTables()) <==> plan.loses)
      && (size != PAGE ==>
        (err == Some(MemoryCacheRanOut) <==> plan.end.RanOut?) &&
        (err == None <==> plan.end.Through? && plan.rest.size == 0))
    ensures err != Some(MemoryCacheRanOut) || pm.accepts ==> pm.spent == old(pm.spent)
    ensures err == Some(AddressIsNotAligned) <==> physical % PAGE != 0 || virtual % PAGE != 0
    ensures err == Some(SizeIsNotAligned) <==> physical % PAGE == 0 && virtual % PAGE == 0 && size % PAGE != 0
    ensures err == Some(AddressIsNotAligned) || err == Some(SizeIsNotAligned) ==> pm.Now() == old(pm.Now())
    ensures err.Some? ==>
      err.value.AddressIsNotAligned? || err.value.SizeIsNotAligned? || err.value.EntryIsNotFound? ||
      err.value.MemoryCacheRanOut?
    ensures err == Some(EntryIsNotFound) ==> var j := Job(physical / PAGE, virtual / PAGE, size / PAGE);
      j.v + j.size > Span(pm.top + 1) || InTheWay(old(pm.tables), pm.root, 0, pm.top, false, j)
    ensures err == Some(MemoryCacheRanOut) ==> |pm.frames| <= pm.top + 1
    ensures err == None ==> var j := Job(physical / PAGE, virtual / PAGE, size / PAGE);
      && (Nice(j, pm.top) <==> Mapped(old(pm.tables), pm.tables, pm.root, pm.top, Fill(attr, false), j))
      && (!Nice(j, pm.top) ==> OffBy(pm.tables, pm.root, pm.top, attr, j))
      && (Nice(j, pm.top) ==> j.v + j.size <= Span(pm.top + 1) && Opened(pm.tables, pm.root, 0, pm.top, j, j.size))
    ensures err == Some(EntryIsNotFound) || err == Some(MemoryCacheRanOut) ==>
      var j := Job(physical / PAGE, virtual / PAGE, size / PAGE);
      Nice(j, pm.top) ==> PartFilled(old(pm.tables), pm.tables, pm.root, 0, pm.top, Fill(attr, false), j)
    ensures Affordable(old(pm.tables), pm.root, pm.top, Job(physical / PAGE, virtual / PAGE, size / PAGE),
                       |old(pm.frames)|) ==>
      pm.LostTables() == old(pm.LostTables()) && (size != PAGE ==> err != Some(MemoryCacheRanOut))
  {
    hide Walk, Span, Based, Nice, Shaped, AreaFrame, Filled, Covers, Stepped, Blocked, Opened, OffBy, Accounted,
      Forecast, Lost, Mapped, InTheWay,
      PartFilled, Affordable;
    if physical % PAGE != 0 || virtual % PAGE != 0 {
      AccountedRefl(pm.Books());
      return Some(AddressIsNotAligned);
    } else if size % PAGE != 0 {
      AccountedRefl(pm.Books());
      return Some(SizeIsNotAligned);
    }
    var j := Job(physical / PAGE, virtual / PAGE, size / PAGE);
    if size == PAGE {
      err := AssociatePage(pm, physical, virtual, j, attr);
    } else {
      err := AssociateWide(pm, j, attr);
    }
  }

  /** The branch of associate_area for one page. */
  method AssociatePage(pm: PageManager, physical: nat, virtual: nat, ghost j: Job, attr: Attr)
    returns (err: Option<PagingError>)
    requires pm.Valid() && Covers(0, pm.top, virtual / PAGE) && physical % PAGE == 0 && virtual % PAGE == 0
    requires j.p == physical / PAGE && j.v == virtual / PAGE && j.size == 1
    modifies pm`tables, pm`frames, pm`place
    ensures pm.Valid() && Accounted(old(pm.Books()), pm.Books()) && old(pm.LostTables()) == pm.LostTables()
    ensures err.Some? ==> err.value.EntryIsNotFound? || err.value.MemoryCacheRanOut?
    ensures err == Some(EntryIsNotFound) ==> InTheWay(old(pm.tables), pm.root, 0, pm.top, false, j)
    ensures err == Some(MemoryCacheRanOut) ==> |pm.frames| <= 1
    ensures Nice(j, pm.top) &&
      (err.Some? ==> PartFilled(old(pm.tables), pm.tables, pm.root, 0, pm.top, Fill(attr, false), j))
    ensures err == None ==>
      && Mapped(old(pm.tables), pm.tables, pm.root, pm.top, Fill(attr, false), j)
      && j.v + j.size <= Span(pm.top + 1) && Opened(pm.tables, pm.root, 0, pm.top, j, j.size)
  {
    hide Walk, Nice, Shaped, Filled, Covers, Blocked, Opened, Accounted, Lost, InTheWay, Mapped, PageManager.InUse,
      PageManager.NoNewBlocks,
      PartFilled, Missing;
    err := pm.AssociateAddress(physical, virtual, attr);
    LostIn(old(pm.Now()), pm.root);
    LostIn(pm.Now(), pm.root);
    OneAccounted(old(pm.Held()), pm.Held(), pm.LostTables());
    OneNice(j, pm.top);
    if err == None {
      OnePage(old(pm.tables), pm.tables, pm.root, pm.top, j, attr);
      PageOpened(pm.tables, pm.root, pm.top, j);
    }
    if err == Some(EntryIsNotFound) { PageInTheWay(old(pm.tables), pm.root, pm.top, false, j); }
    if err.Some? { NothingMapped(old(pm.tables), pm.tables, pm.root, pm.top, Fill(attr, false), j); }
  }

  lemma NothingMapped(t: Tables, t': Tables, root: nat, top: nat, f: Fill, j: Job)
    requires Covers(0, top, j.v) && forall vp: nat :: Covers(0, top, vp) ==>
      Walk(t', root, top, vp) == Walk(t, root, top, vp)
    ensures PartFilled(t, t', root, 0, top, f, j)
  {
    hide Walk;
    PartNone(t, t', root, 0, top, f, j);
  }

  lemma PageInTheWay(t: Tables, root: nat, top: nat, missing: bool, j: Job)
    requires j.size > 0 && Covers(0, top, j.v) && Blocked(t, root, top, j.v, missing)
    ensures InTheWay(t, root, 0, top, missing, j)
  {
    hide Blocked, Covers;
  }

  lemma OneAccounted(h: Holdings, h': Holdings, lost: set<nat>)
    requires h'.tables + h'.free == h.tables + h.free && h'.spent == h.spent && h.tables !! h.free &&
      h'.tables !! h'.free
    requires h.spent !! h.tables && h.spent !! h.free && lost <= h.tables && lost <= h'.tables
    ensures Accounted(Holdings(h.tables - lost, h.free, h.spent + lost),
                      Holdings(h'.tables - lost, h'.free, h'.spent + lost))
  {
    AccountedLost(h, h', lost, lost);
  }

  /** _associate_area from the root. */
  method AssociateAreaRoot(pm: PageManager, j: Job, f: Fill) returns (r: Result<Job>, ghost w: set<nat>)
    requires pm.Valid() && Covers(0, pm.top, j.v)
    modifies pm`tables, pm`frames, pm`place, pm`spent
    ensures pm.Valid() && Accounted(old(pm.Books()), pm.Books()) && old(pm.LostTables()) <= pm.LostTables()
    ensures AreaErrors(old(pm.Now()), pm.Now(), pm.root, 0, pm.top, f, j, r)
    ensures r.Ok? ==>
      Stepped(old(pm.tables), pm.tables, pm.root, 0, pm.top, f, j, 0, Span(pm.top + 1), Nice(j, pm.top), r.value)
    ensures r.Ok? && Nice(j, pm.top) && !f.unmap ==>
      r.value.v >= j.v && Opened(pm.tables, pm.root, 0, pm.top, j, r.value.v - j.v)
    ensures var plan := Forecast(old(pm.tables), Some(pm.root), pm.top, j, |old(pm.frames)|, f.unmap);
      Ends(r, pm.Now(), plan) && (pm.LostTables() != old(pm.LostTables()) <==> plan.loses)
    ensures f.unmap ==>
      Unmaps(old(pm.tables), pm.tables, pm.root, 0, pm.top, 0, Span(pm.top + 1), j, Nice(j, pm.top), r, w)
    ensures r != Err(MemoryCacheRanOut) || pm.accepts ==> pm.spent == old(pm.spent)
    ensures r.Err? && Nice(j, pm.top) ==> PartFilled(old(pm.tables), pm.tables, pm.root, 0, pm.top, f, j)
  {
    hide Walk, Span, Based, Nice, Shaped, AreaFrame, Filled, Covers, Stepped, Blocked, InTheWay, Opened, Congruent,
      StopsIn, AreaErrors,
      Accounted, Unmaps, Ends, Forecast, Lost, Done, PartFilled;
    r, w := AssociateAreaRec(pm, pm.root, pm.top, 0, j, f);
    RootDone(old(pm.Now()), pm.Now(), pm.root, pm.top, f, j, r,
             Forecast(old(pm.tables), Some(pm.root), pm.top, j, |old(pm.frames)|, f.unmap), w);
    SpentApart(old(pm.Held()), pm.Held());
    AccountedLost(old(pm.Held()), pm.Held(), old(pm.LostTables()), pm.LostTables());
  }

  /** A call on the root, told for the whole address space. */
  lemma RootDone(s: State, s': State, root: nat, top: nat, f: Fill, j: Job, r: Result<Job>, d: Trip, w: set<nat>)
    requires SoundState(s) && root in s.t && root in s.place && s.place[root].level == top && s.place[root].base == 0
    requires Done(s, s', root, 0, top, f, j, 0, ENTRIES, Nice(j, top), r, d, w)
    ensures root in s'.t && root in s'.place && s'.place[root] == s.place[root]
    ensures AreaErrors(s, s', root, 0, top, f, j, r) && Ends(r, s', d)
    ensures Lost(s.t, s.place, root) <= s.t.Keys && Lost(s'.t, s'.place, root) <= s'.t.Keys
    ensures Lost(s.t, s.place, root) <= Lost(s'.t, s'.place, root) &&
      (Lost(s'.t, s'.place, root) != Lost(s.t, s.place, root) <==> d.loses)
    ensures f.unmap ==> Unmaps(s.t, s'.t, root, 0, top, 0, Span(top + 1), j, Nice(j, top), r, w)
    ensures r.Ok? ==> Stepped(s.t, s'.t, root, 0, top, f, j, 0, Span(top + 1), Nice(j, top), r.value)
    ensures r.Ok? && Nice(j, top) && !f.unmap ==> r.value.v >= j.v && Opened(s'.t, root, 0, top, j, r.value.v - j.v)
    ensures r.Err? && Nice(j, top) ==> PartFilled(s.t, s'.t, root, 0, top, f, j)
  {
    hide AreaFrame, AreaErrors, KeptSlots, Unmaps, Elsewhere, Stepped, Opened, Nice, Span, Shaped, Child, Loss, HungNew,
      Lost, PartFilled;
    ChildStep(0, top, 0);
    KeptInArea(s, s', top, 0, Span(top + 1), root);
    FrameKeys(s, s', top, 0, Span(top + 1));
    LossAtRoot(s, s', root, d.loses);
    LostIn(s, root);
    LostIn(s', root);
  }

  lemma LostIn(s: State, root: nat)
    ensures Lost(s.t, s.place, root) <= s.t.Keys
  {
    hide Hangs;
  }

  /** The bulk path from the root. */
  method AssociateWide(pm: PageManager, j: Job, attr: Attr) returns (err: Option<PagingError>)
    requires pm.Valid() && Covers(0, pm.top, j.v)
    modifies pm`tables, pm`frames, pm`place, pm`spent
    ensures pm.Valid() && Accounted(old(pm.Books()), pm.Books()) && old(pm.LostTables()) <= pm.LostTables()
    ensures var plan := Forecast(old(pm.tables), Some(pm.root), pm.top, j, |old(pm.frames)|, false);
      (pm.LostTables() != old(pm.LostTables()) <==> plan.loses) &&
        (err == Some(MemoryCacheRanOut) <==> plan.end.RanOut?)
    ensures var plan := Forecast(old(pm.tables), Some(pm.root), pm.top, j, |old(pm.frames)|, false);
      err == None <==> plan.end.Through? && plan.rest.size == 0
    ensures err != Some(MemoryCacheRanOut) || pm.accepts ==> pm.spent == old(pm.spent)
    ensures err.Some? ==> err.value.EntryIsNotFound? || err.value.MemoryCacheRanOut?
    ensures err == Some(EntryIsNotFound) ==>
      j.v + j.size > Span(pm.top + 1) || InTheWay(old(pm.tables), pm.root, 0, pm.top, false, j)
    ensures err == Some(MemoryCacheRanOut) ==> |pm.frames| <= pm.top + 1
    ensures err == None ==>
      (Nice(j, pm.top) <==> Mapped(old(pm.tables), pm.tables, pm.root, pm.top, Fill(attr, false), j))
    ensures err == None && !Nice(j, pm.top) ==> OffBy(pm.tables, pm.root, pm.top, attr, j)
    ensures err == None && Nice(j, pm.top) ==>
      j.v + j.size <= Span(pm.top + 1) && Opened(pm.tables, pm.root, 0, pm.top, j, j.size)
    ensures err.Some? && Nice(j, pm.top) ==>
      PartFilled(old(pm.tables), pm.tables, pm.root, 0, pm.top, Fill(attr, false), j)
    ensures Affordable(old(pm.tables), pm.root, pm.top, j, |old(pm.frames)|) ==>
      pm.LostTables() == old(pm.LostTables()) && err != Some(MemoryCacheRanOut)
  {
    hide Walk, Span, Based, Nice, Shaped, AreaFrame, Filled, Covers, Stepped, Blocked, InTheWay, Opened, Congruent,
      StopsIn, Mapped, OffBy,
      Accounted, Forecast, Lost, PartFilled, Affordable;
    if Affordable(pm.tables, pm.root, pm.top, j, |pm.frames|) { CanAfford(pm.Now(), pm.root, pm.top, j); }
    var f := Fill(attr, false);
    var r;
    ghost var w;
    r, w := AssociateAreaRoot(pm, j, f);
    if r.Err? {
      return Some(r.error);
    }
    if r.value.size != 0 {
      BeyondEnd(old(pm.tables), pm.tables, pm.root, pm.top, f, j, r.value);
      if Nice(j, pm.top) { PartBeyond(old(pm.tables), pm.tables, pm.root, pm.top, f, j, r.value); }
      return Some(EntryIsNotFound);
    }
    NiceIff(old(pm.tables), pm.tables, pm.root, pm.top, f, j, r.value);
    return None;
  }

  /** The two cursors agree modulo every block that fits, no slot that the range covers wholly holds a table, and more
      frames are free than tables are missing. */
  ghost predicate Affordable(t: Tables, root: nat, top: nat, j: Job, free: nat) {
    && Congruent(j, top) && Spared(t, root, 0, top, j)
    && var need := MissingTables(t, Some(root), top, j).need; need == 0 || free > need
  }

  lemma CanAfford(s: State, root: nat, top: nat, j: Job)
    requires SoundState(s) && root in s.t && Covers(0, top, j.v) && Affordable(s.t, root, top, j, |s.frames|)
    ensures var plan := Forecast(s.t, Some(root), top, j, |s.frames|, false); !plan.loses && !plan.end.RanOut?
  {
    hide Forecast, Covers, Congruent, Spared, MissingTables;
    MultipleBased(0, top);
    WholeTables(s);
    EnoughFrames(s.t, root, top, 0, j, |s.frames|);
  }

  lemma WholeTables(s: State)
    requires SoundState(s)
    ensures Whole(s.t)
  {
    hide Based, Child;
    forall a, i | a in s.t && 0 <= i < ENTRIES && s.t[a][i].Table? ensures s.t[a][i].addr in s.t {
      assert SlotOk(s.t, s.place, a, i);
    }
  }

  lemma PartBeyond(t: Tables, t': Tables, root: nat, top: nat, f: Fill, j: Job, rest: Job)
    requires Stepped(t, t', root, 0, top, f, j, 0, Span(top + 1), true, rest)
    ensures PartFilled(t, t', root, 0, top, f, j)
  {
    hide Span, Below, Filled, Astray;
    assert FilledTo(t, t', root, 0, top, f, j, rest.v - j.v);
  }

  lemma BeyondEnd(t: Tables, t': Tables, root: nat, top: nat, f: Fill, j: Job, rest: Job)
    requires Stepped(t, t', root, 0, top, f, j, 0, Span(top + 1), Nice(j, top), rest) && rest.size > 0
    ensures j.v + j.size > Span(top + 1)
  {
    hide Nice, Span, Below, Filled, Astray;
  }

  lemma OnePage(t: Tables, t': Tables, root: nat, top: nat, j: Job, attr: Attr)
    requires j.size == 1
    requires forall vp: nat :: Covers(0, top, vp) ==>
      Walk(t', root, top, vp) == if vp == j.v then Some(Mapping(j.p, attr)) else Walk(t, root, top, vp)
    ensures Mapped(t, t', root, top, Fill(attr, false), j) && Nice(j, top)
  {
    hide Walk, Covers;
    FilledPage(t, t', root, top, attr, j);
  }

  /** unassociate_address_width_size. */
  method UnassociateAddressWithSize(pm: PageManager, virtual: nat, size: nat, entryMayBeDeleted: bool)
    returns (err: Option<PagingError>)
    requires pm.Valid() && Covers(0, pm.top, virtual / PAGE)
    modifies pm`tables, pm`frames, pm`place, pm`spent
    ensures pm.Valid() && pm.tables.Keys <= old(pm.tables.Keys)
    ensures Accounted(old(pm.Books()), pm.Books()) && old(pm.LostTables()) <= pm.LostTables()
    ensures size % PAGE == 0 ==>
      (pm.LostTables() != old(pm.LostTables()) <==>
       Plan(old(pm.tables), pm.root, pm.top, Job(0, virtual / PAGE, size / PAGE), |old(pm.frames)|, true).loses)
    ensures err == Some(AddressIsNotAligned) <==> size % PAGE != 0
    ensures err.Some? && err.value.AddressIsNotAligned? ==> pm.Now() == old(pm.Now())
    ensures err == Some(EntryIsNotFound) ==>
      InTheWay(old(pm.tables), pm.root, 0, pm.top, true, Job(0, virtual / PAGE, size / PAGE))
    ensures err.Some? ==>
      err.value.AddressIsNotAligned? || err.value.EntryIsNotFound? || err.value.InvalidPageTable? ||
      (err.value.MemoryCacheOverflowed? && !pm.accepts)
    ensures err != Some(MemoryCacheOverflowed) ==> Collected(old(pm.Held()), pm.Held())
    ensures virtual / PAGE + size / PAGE <= Span(pm.top + 1) && (err == None || err == Some(InvalidPageTable)) ==>
      PathUsed(pm.tables, pm.root, pm.top, virtual / PAGE) &&
      (err == Some(InvalidPageTable) <==> NoDescriptor(pm.tables, pm.root))
    ensures size % PAGE == 0 && Unmappable(old(pm.tables), pm.root, pm.top, Job(0, virtual / PAGE, size / PAGE)) ==>
      err != Some(EntryIsNotFound) &&
        Unmapped(old(pm.tables), pm.tables, pm.root, pm.top, Job(0, virtual / PAGE, size / PAGE))
    ensures size % PAGE == 0 && size != PAGE ==> var j := Job(0, virtual / PAGE, size / PAGE);
      && (Nice(j, pm.top) && (err == None || err == Some(MemoryCacheOverflowed)) ==>
        Unmapped(old(pm.tables), pm.tables, pm.root, pm.top, j))
      && (Nice(j, pm.top) && j.v + j.size <= Span(pm.top + 1) ==>
            (err == Some(EntryIsNotFound) <==> !Opened(old(pm.tables), pm.root, 0, pm.top, j, j.size)))
      && (Nice(j, pm.top) && err == Some(EntryIsNotFound) ==>
            PartFilled(old(pm.tables), pm.tables, pm.root, 0, pm.top, Fill(Attr(false, false, false, false), true), j))
      && (AllMapped(old(pm.tables), pm.root, pm.top, j) ==>
            (Unmapped(old(pm.tables), pm.tables, pm.root, pm.top, j) <==>
             Nice(j, pm.top) && Opened(old(pm.tables), pm.root, 0, pm.top, j, j.size)))
    ensures size == PAGE ==> forall vp: nat :: Covers(0, pm.top, vp) ==>
      pm.Translate(vp) == if vp == virtual / PAGE && !Blocked(old(pm.tables), pm.root, pm.top, vp, true) then None
        else old(pm.Translate(vp))
  {
    hide Walk, Span, Based, Nice, Shaped, AreaFrame, Filled, Covers, Stepped, Blocked, NoDescriptor, Unmapped,
      Unmappable, AllMapped,
      Accounted, Forecast, Lost, PartFilled, Opened, PathUsed;
    if size % PAGE != 0 {
      AccountedRefl(pm.Books());
      return Some(AddressIsNotAligned);
    }
    var j := Job(0, virtual / PAGE, size / PAGE);
    if size == PAGE {
      err := pm.UnassociateAddress(virtual, entryMayBeDeleted);
      LostIn(old(pm.Now()), pm.root);
      LostIn(pm.Now(), pm.root);
      AccountedLost(old(pm.Held()), pm.Held(), old(pm.LostTables()), pm.LostTables());
      if err == Some(EntryIsNotFound) { PageInTheWay(old(pm.tables), pm.root, pm.top, true, j); }
      if Unmappable(old(pm.tables), pm.root, pm.top, j) { OneUnmapped(old(pm.tables), pm.tables, pm.root, pm.top, j); }
      return;
    }
    err := UnassociateWide(pm, j);
  }

  /** The free frames grew by exactly the frames of the tables that are gone. */
  ghost predicate Collected(h: Holdings, h': Holdings) {
    h'.tables <= h.tables && h'.free == h.free + (h.tables - h'.tables) && h'.spent == h.spent
  }

  /** The range can be unmapped: aligned, inside the address space, and no page of it stops. */
  ghost predicate Unmappable(t: Tables, root: nat, top: nat, j: Job) {
    Covers(0, top, j.v) && Nice(j, top) && j.v + j.size <= Span(top + 1) && Opened(t, root, 0, top, j, j.size)
  }

  /** The bulk unmap from the root. */
  method UnassociateWide(pm: PageManager, j: Job) returns (err: Option<PagingError>)
    requires pm.Valid() && Covers(0, pm.top, j.v) && j.p == 0
    modifies pm`tables, pm`frames, pm`place, pm`spent
    ensures pm.Valid() && pm.tables.Keys <= old(pm.tables.Keys)
    ensures Accounted(old(pm.Books()), pm.Books()) && old(pm.LostTables()) <= pm.LostTables()
    ensures pm.LostTables() != old(pm.LostTables()) <==>
      Forecast(old(pm.tables), Some(pm.root), pm.top, j, |old(pm.frames)|, true).loses
    ensures err == Some(EntryIsNotFound) ==> InTheWay(old(pm.tables), pm.root, 0, pm.top, true, j)
    ensures err.Some? ==>
      err.value.EntryIsNotFound? || err.value.InvalidPageTable? || (err.value.MemoryCacheOverflowed? && !pm.accepts)
    ensures err != Some(MemoryCacheOverflowed) ==> Collected(old(pm.Held()), pm.Held())
    ensures j.v + j.size <= Span(pm.top + 1) && (err == None || err == Some(InvalidPageTable)) ==>
      PathUsed(pm.tables, pm.root, pm.top, j.v) && (err == Some(InvalidPageTable) <==> NoDescriptor(pm.tables, pm.root))
    ensures Unmappable(old(pm.tables), pm.root, pm.top, j) ==>
      err != Some(EntryIsNotFound) && Unmapped(old(pm.tables), pm.tables, pm.root, pm.top, j)
    ensures Nice(j, pm.top) && (err == None || err == Some(MemoryCacheOverflowed)) ==>
      Unmapped(old(pm.tables), pm.tables, pm.root, pm.top, j)
    ensures Nice(j, pm.top) && j.v + j.size <= Span(pm.top + 1) ==>
      (err == Some(EntryIsNotFound) <==> !Opened(old(pm.tables), pm.root, 0, pm.top, j, j.size))
    ensures Nice(j, pm.top) && err == Some(EntryIsNotFound) ==>
      PartFilled(old(pm.tables), pm.tables, pm.root, 0, pm.top, Fill(Attr(false, false, false, false), true), j)
    ensures AllMapped(old(pm.tables), pm.root, pm.top, j) ==>
      (Unmapped(old(pm.tables), pm.tables, pm.root, pm.top, j) <==>
       Nice(j, pm.top) && Opened(old(pm.tables), pm.root, 0, pm.top, j, j.size))
  {
    hide Walk, Span, Based, Nice, Shaped, AreaFrame, Filled, Covers, Stepped, Blocked, NoDescriptor, Unmapped, InTheWay,
      Opened, Congruent, StopsIn,
      Accounted, Forecast, Lost, Unmaps, AllMapped, Mapped, PartFilled, PathUsed;
    var f := Fill(Attr(false, false, false, false), true);
    var r;
    ghost var w;
    r, w := AssociateAreaRoot(pm, j, f);
    if Nice(j, pm.top) { OpenIfThrough(old(pm.tables), pm.root, pm.top, j, |old(pm.frames)|); }
    InSpace(old(pm.tables), pm.root, pm.top, j);
    if r.Err? {
      if Nice(j, pm.top) {
        UnmapCongruent(j, pm.top);
        StopsNotOpened(old(pm.tables), pm.root, pm.top, j);
      }
      if AllMapped(old(pm.tables), pm.root, pm.top, j) {
        NotAll(old(pm.tables), pm.tables, pm.tables, pm.root, pm.top, j, r, w);
      }
      return Some(r.error);
    }
    if r.value.size != 0 {
      BeyondEnd(old(pm.tables), pm.tables, pm.root, pm.top, f, j, r.value);
      return Some(InvalidPageTable);
    }
    NiceIff(old(pm.tables), pm.tables, pm.root, pm.top, f, j, r.value);
    err := CollectAfter(pm, j, f, r, old(pm.tables), old(pm.Books()), w);
  }

  /** The empty tables are collected after an unmap that got to its end; the translations stay as the unmap left them.
      */
  method CollectAfter(pm: PageManager, j: Job, ghost f: Fill, ghost r: Result<Job>, ghost t: Tables, ghost h: Holdings,
                      ghost w: set<nat>)
    returns (err: Option<PagingError>)
    requires pm.Valid() && Covers(0, pm.top, j.v) && f.unmap && r.Ok? && r.value.v <= j.v + j.size &&
      Accounted(h, pm.Books())
    requires Nice(j, pm.top) ==> Mapped(t, pm.tables, pm.root, pm.top, f, j)
    requires Unmaps(t, pm.tables, pm.root, 0, pm.top, 0, Span(pm.top + 1), j, Nice(j, pm.top), r, w)
    modifies pm`tables, pm`frames, pm`place, pm`spent
    ensures pm.Valid() && pm.tables.Keys <= old(pm.tables.Keys)
    ensures Accounted(h, pm.Books()) && pm.LostTables() == old(pm.LostTables())
    ensures err.Some? ==> err.value.InvalidPageTable? || (err.value.MemoryCacheOverflowed? && !pm.accepts)
    ensures err != Some(MemoryCacheOverflowed) ==>
      Collected(old(pm.Held()), pm.Held()) && PathUsed(pm.tables, pm.root, pm.top, j.v) &&
      (err == Some(InvalidPageTable) <==> NoDescriptor(pm.tables, pm.root))
    ensures Nice(j, pm.top) ==> Unmapped(t, pm.tables, pm.root, pm.top, j)
    ensures !Nice(j, pm.top) && AllMapped(t, pm.root, pm.top, j) ==> !Unmapped(t, pm.tables, pm.root, pm.top, j)
  {
    hide Walk, Span, Nice, Shaped, Covers, NoDescriptor, Unmapped, Accounted, Lost, Unmaps, AllMapped, Mapped, Blocked,
      PageManager.InUse, PageManager.NoNewBlocks, PathUsed;
    ghost var u, h', b' := pm.Now(), pm.Held(), pm.Books();
    err := pm.CleanupPageTable(j.v);
    LostIn(u, pm.root);
    LostIn(pm.Now(), pm.root);
    AccountedLost(h', pm.Held(), pm.LostTables(), pm.LostTables());
    AccountedTrans(h, b', pm.Books());
    if Nice(j, pm.top) {
      CleanedUnmapped(t, u.t, pm.tables, pm.root, pm.top, f, j);
    } else if AllMapped(t, pm.root, pm.top, j) {
      NotAll(t, u.t, pm.tables, pm.root, pm.top, j, r, w);
    }
  }

  lemma OpenIfThrough(t: Tables, root: nat, top: nat, j: Job, free: nat)
    requires j.p == 0 && Nice(j, top) && Covers(0, top, j.v)
    ensures var d := Forecast(t, Some(root), top, j, free, true);
      d.end.Through? && d.rest.size == 0 ==> Opened(t, root, 0, top, j, j.size)
  {
    hide Forecast, Covers, Congruent, Opened, Nice;
    UnmapCongruent(j, top);
    MultipleBased(0, top);
    ThroughMeansOpen(t, root, top, 0, j, free);
  }

  lemma InSpace(t: Tables, root: nat, top: nat, j: Job)
    ensures AllMapped(t, root, top, j) ==> j.v + j.size <= Span(top + 1)
  {
    hide Walk, Span;
  }

  /** A page of the range keeps its translation, also when the empty tables have been collected. */
  lemma NotAll(t: Tables, u: Tables, t': Tables, root: nat, top: nat, j: Job, r: Result<Job>, w: set<nat>)
    requires AllMapped(t, root, top, j) && (r.Err? || (!Nice(j, top) && r.value.v <= j.v + j.size))
    requires Unmaps(t, u, root, 0, top, 0, Span(top + 1), j, Nice(j, top), r, w)
    requires forall vp: nat :: Covers(0, top, vp) ==> Walk(t', root, top, vp) == Walk(u, root, top, vp)
    ensures !Unmapped(t, t', root, top, j)
  {
    hide Walk, Nice, Unmaps, Span;
    UnmapsSome(t, u, root, top, j, r, w);
    var vp: nat :| j.v <= vp < j.v + j.size && Walk(u, root, top, vp) == Walk(t, root, top, vp);
    assert Covers(0, top, vp);
  }

  lemma StopsNotOpened(t: Tables, root: nat, top: nat, j: Job)
    requires StopsIn(t, root, 0, top, j)
    ensures !Opened(t, root, 0, top, j, j.size)
  {
    hide Stops, Covers;
  }

  lemma {:induction false} StopsBlocked(t: Tables, a: nat, n: nat, base: nat, vp: nat, lo: nat, hi: nat)
    requires Stops(t, a, n, base, vp, lo, hi)
    ensures Blocked(t, a, n, vp, true)
    decreases n
  {
    hide Index, Child;
    if t[a][Index(vp, n)].Table? {
      StopsBlocked(t, t[a][Index(vp, n)].addr, n - 1, Child(base, n, Index(vp, n)), vp, lo, hi);
    }
  }

  /** One page never covers a slot above level 0. */
  lemma {:induction false} BlockedStops(t: Tables, a: nat, n: nat, base: nat, vp: nat, lo: nat)
    requires Blocked(t, a, n, vp, true)
    ensures Stops(t, a, n, base, vp, lo, lo + 1)
    decreases n
  {
    hide Index, Child;
    var i := Index(vp, n);
    ChildStep(base, n, i);
    if t[a][i].Table? { BlockedStops(t, t[a][i].addr, n - 1, Child(base, n, i), vp, lo); }
  }

  lemma PageOpened(t: Tables, root: nat, top: nat, j: Job)
    requires j.size == 1 && Covers(0, top, j.v) && !Blocked(t, root, top, j.v, true)
    ensures Opened(t, root, 0, top, j, j.size) && j.v + j.size <= Span(top + 1)
  {
    hide Stops, Blocked;
    if Stops(t, root, top, 0, j.v, j.v, j.v + 1) { StopsBlocked(t, root, top, 0, j.v, j.v, j.v + 1); }
  }

  lemma OneUnmapped(t: Tables, t': Tables, root: nat, top: nat, j: Job)
    requires j.size == 1 && Unmappable(t, root, top, j)
    requires forall vp: nat :: Covers(0, top, vp) ==>
      Walk(t', root, top, vp) == if vp == j.v && !Blocked(t, root, top, vp, true) then None else Walk(t, root, top, vp)
    ensures !Blocked(t, root, top, j.v, true) && Unmapped(t, t', root, top, j)
  {
    hide Walk, Blocked, Stops, Nice;
    if Blocked(t, root, top, j.v, true) { BlockedStops(t, root, top, 0, j.v, j.v); }
  }

  /** Mapping an unmapped range and unmapping it again: every translation is restored exactly if the range is aligned to
      the blocks that an unmap of its size would take. */
  method MapAndUnmap(pm: PageManager, physical: nat, virtual: nat, size: nat, attr: Attr)
    returns (mapped: Option<PagingError>, unmapped: Option<PagingError>)
    requires pm.Valid() && Covers(0, pm.top, virtual / PAGE)
    requires Nice(Job(physical / PAGE, virtual / PAGE, size / PAGE), pm.top)
    requires forall vp: nat :: Covers(0, pm.top, vp) && virtual / PAGE <= vp < virtual / PAGE + size / PAGE ==>
      pm.Translate(vp) == None
    modifies pm`tables, pm`frames, pm`place, pm`spent
    ensures pm.Valid()
    ensures mapped == None ==>
      (SameWalks(pm.tables, old(pm.tables), pm.root, 0, pm.top) <==> Nice(Job(0, virtual / PAGE, size / PAGE), pm.top))
    ensures mapped == None && Nice(Job(0, virtual / PAGE, size / PAGE), pm.top) ==> unmapped != Some(EntryIsNotFound)
  {
    hide Walk, Span, Nice, Filled, Covers, Stops, Blocked, NoDescriptor, Unmapped, SameWalks, Opened, Mapped, OffBy,
      Accounted, Forecast, Lost,
      AllMapped, PartFilled, Affordable;
    mapped := AssociateArea(pm, physical, virtual, size, attr);
    unmapped := None;
    if mapped == None {
      ghost var u, j := pm.tables, Job(physical / PAGE, virtual / PAGE, size / PAGE);
      ghost var k := Job(0, j.v, j.size);
      SameRange(u, pm.root, pm.top, j, k);
      MappedAll(old(pm.tables), u, pm.root, pm.top, attr, j, k);
      unmapped := UnassociateAddressWithSize(pm, virtual, size, false);
      if size == PAGE { OneNice(k, pm.top); }
      RestoredIff(old(pm.tables), u, pm.tables, pm.root, pm.top, attr, j, k);
    }
  }

  lemma OneNice(j: Job, top: nat)
    requires j.size <= 1
    ensures Nice(j, top)
  {
    forall m: nat | m <= top ensures !Blocky(j, m) { if m > 0 { assert Span(m) == 512 * Span(m - 1); } }
  }

  lemma MappedAll(t: Tables, u: Tables, root: nat, top: nat, attr: Attr, j: Job, k: Job)
    requires Mapped(t, u, root, top, Fill(attr, false), j) && j.v + j.size <= Span(top + 1) && k.v == j.v &&
      k.size == j.size
    ensures AllMapped(u, root, top, k)
  {
    hide Walk, Span;
    forall vp: nat | k.v <= vp < k.v + k.size ensures Walk(u, root, top, vp).Some? { assert Covers(0, top, vp); }
  }

  /** Restoring the translations is unmapping what was mapped. */
  lemma RestoredIff(t: Tables, u: Tables, w: Tables, root: nat, top: nat, attr: Attr, j: Job, k: Job)
    requires Mapped(t, u, root, top, Fill(attr, false), j) && k.v == j.v && k.size == j.size
    requires forall vp: nat :: Covers(0, top, vp) && j.v <= vp < j.v + j.size ==> Walk(t, root, top, vp) == None
    ensures SameWalks(w, t, root, 0, top) <==> Unmapped(u, w, root, top, k)
  {
    hide Walk, Covers;
    if Unmapped(u, w, root, top, k) { MapThenUnmapRestores(t, u, w, root, top, attr, j); }
  }

  /** A range of one 2 MiB block that does not start at a multiple of it. Mapped to an aligned frame, its first page
      comes to the next frame; mapped page by page, it cannot be unmapped as a range. */
  lemma UnalignedGoesAstray(t': Tables, root: nat, top: nat, attr: Attr)
    requires top > 0
    ensures !Nice(Job(512, 1, 512), top) &&
      (OffBy(t', root, top, attr, Job(512, 1, 512)) ==> Walk(t', root, top, 1) == Some(Mapping(513, attr)))
    ensures Nice(Job(1, 1, 512), top) && !Nice(Job(0, 1, 512), top)
  {
    hide Walk;
    assert Span(1) == 512 && Span(2) == 512 * 512;
    assert Blocky(Job(512, 1, 512), 1) && Blocky(Job(0, 1, 512), 1);
  }

  lemma OnePageTable(p: nat, v: nat, size: nat, k: nat)
    requires v % 512 + k <= 512 && k <= size && (k == size || v % 512 + k == 512)
    ensures NewBill(0, Job(p, v, size)) == Bill(0, 0, Job(p + k, v + k, size - k))
  {
    assert Span(0) == 1 && Index(v, 0) == v % 512;
  }

  lemma BillStep(n: nat, i: nat, j: Job)
    requires n > 0 && i < ENTRIES && j.size > 0 && !Blocky(j, n)
    ensures var c := NewBill(n - 1, j); var r := BillFrom(n, i + 1, c.rest);
      BillFrom(n, i, j) == Bill(1 + c.need + r.need, 1 + c.chain, r.rest)
  {
    hide NewBill;
  }

  lemma TwoTables()
    ensures NewBill(1, Job(1, 511, 2)) == Bill(2, 1, Job(3, 513, 0))
  {
    hide NewBill, BillFrom, Blocky;
    OnePageTable(1, 511, 2, 1);
    OnePageTable(2, 512, 1, 1);
    assert Span(1) == 512;
    TooSmall(Job(1, 511, 2), 1);
    TooSmall(Job(2, 512, 1), 1);
    BillStep(1, 0, Job(1, 511, 2));
    BillStep(1, 1, Job(2, 512, 1));
    NoBill(1, 2, Job(3, 513, 0));
    IndexOf(Job(1, 511, 2));
  }

  lemma NoBill(n: nat, i: nat, j: Job)
    requires n > 0 && i <= ENTRIES && j.size == 0
    ensures BillFrom(n, i, j) == Bill(0, 0, j)
  {
  }

  lemma IndexOf(j: Job)
    requires j.v == 511
    ensures NewBill(1, j) == BillFrom(1, 0, j)
  {
    hide BillFrom;
    assert Span(1) == 512 && Index(511, 1) == 0;
  }

  /** A gigabyte that starts at a multiple of it needs one table below an empty root slot of four levels, 2 MiB two, and
      a page three: blocks are written at the two levels above the page tables, and at no other. */
  lemma TablesForBlocks(t: Tables, root: nat, free: nat, size: nat)
    requires root in t && |t[root]| == ENTRIES && t[root][0].Invalid? && (size == 512 * 512 || size == 512 || size == 1)
    ensures ForecastSlot(t, Some(root), 3, 0, Job(0, 0, size), free, false).end.Through? <==>
      free > (if size == 512 * 512 then 1 else if size == 512 then 2 else 3)
    ensures !Blocky(Job(0, 0, 512 * 512 * 512), 3)
  {
    hide ForecastSlot, NewBill;
    BlockBill(size);
    EmptySlotPays(t, Some(root), 3, 0, Job(0, 0, size), free);
  }

  lemma BlockBill(size: nat)
    requires size == 512 * 512 || size == 512 || size == 1
    ensures NewBill(2, Job(0, 0, size)).need == if size == 512 * 512 then 0 else if size == 512 then 1 else 2
  {
    hide NewBill, BillFrom, Blocky;
    var j, rest := Job(0, 0, size), Job(size, size, 0);
    assert Span(0) == 1 && Span(1) == 512 && Span(2) == 512 * 512;
    if size == 512 * 512 {
      WholeBlock(2);
    } else if size == 512 {
      WholeBlock(1);
      TooSmall(j, 2);
      FirstSlot(2, j);
      BillStep(2, 0, j);
      NoBill(2, 1, rest);
    } else {
      OnePageTable(0, 0, 1, 1);
      TooSmall(j, 1);
      TooSmall(j, 2);
      FirstSlot(1, j);
      FirstSlot(2, j);
      BillStep(1, 0, j);
      NoBill(1, 1, rest);
      BillStep(2, 0, j);
      NoBill(2, 1, rest);
    }
  }

  lemma FirstSlot(n: nat, j: Job)
    requires n > 0 && j.v == 0
    ensures NewBill(n, j) == BillFrom(n, 0, j)
  {
    hide BillFrom, Span;
    assert 0 / Span(n) == 0;
  }

  /** One block fills a job of its size. */
  lemma WholeBlock(n: nat)
    requires 0 < n <= BLOCK_LEVEL
    ensures NewBill(n, Job(0, 0, Span(n))) == Bill(0, 0, Job(Span(n), Span(n), 0))
  {
    hide Span;
    var j := Job(0, 0, Span(n));
    FirstSlot(n, j);
    assert BlockRun(Job(Span(n), Span(n), 0), n, 1) == (Job(Span(n), Span(n), 0), 1);
    assert Blocks(j, n, 0) == (Job(Span(n), Span(n), 0), 1);
  }

  /** Two pages in two page tables below an empty 1 GiB slot: with three free frames the call runs out of frames and
      loses the first page table; with two it loses nothing, and four are enough. */
  lemma RunningOutLoses(t: Tables, root: nat, free: nat)
    requires root in t && |t[root]| == ENTRIES && t[root][0].Invalid?
    ensures var d := ForecastSlot(t, Some(root), 2, 0, Job(1, 511, 2), free, false);
      (d.loses <==> free == 3) && (d.end.RanOut? <==> free <= 3)
  {
    hide ForecastSlot, NewBill;
    var j := Job(1, 511, 2);
    TwoTables();
    EmptySlotPays(t, Some(root), 2, 0, j, free);
  }

  lemma ThreeFrames(t: Tables, root: nat)
    requires root in t && |t[root]| == ENTRIES && t[root][0].Invalid?
    ensures var d := Plan(t, root, 2, Job(1, 511, 2), 3, false); d.end.RanOut? && d.loses
  {
    hide ForecastSlot, ForecastRound, Blocky;
    var j := Job(1, 511, 2);
    assert Span(2) == 512 * 512 && Index(511, 2) == 0;
    RunningOutLoses(t, root, 3);
    TooSmall(j, 2);
    NoBlocks(t, root, 2, 0, j, 3, false);
    assert Forecast(t, Some(root), 2, j, 3, false) == ForecastRounds(t, Some(root), 2, 0, j, 3, false);
  }

  /** Such a call on a new address space of three levels: the error leaves a table that no walk comes to, and its frame
      is neither free nor held, although every frame that was given back was taken. */
  method LosesTable(attr: Attr) returns (pm: PageManager, err: Option<PagingError>)
    ensures pm.Valid() && err == Some(MemoryCacheRanOut) && pm.LostTables() != {}
    ensures pm.spent == {} && pm.tables.Keys + pm.frames == {0, 1, 2, 3} && pm.frames != {1, 2, 3}
  {
    hide Plan, Lost, Walk, Nice, Filled, Covers, Span, Mapped, InTheWay, Opened, OffBy, Accounted, EMPTY, Shaped;
    pm := new PageManager(0, 2, {1, 2, 3}, true);
    EmptyRoot(pm.tables);
    ThreeFrames(pm.tables, 0);
    assert Covers(0, 2, 511) by { PageCovered(); }
    ghost var h := pm.Books();
    err := AssociateArea(pm, PAGE, 511 * PAGE, 2 * PAGE, attr);
    LostIn(pm.Now(), pm.root);
    RootStays(pm.Now(), pm.root);
    OneLost(pm, h);
  }

  lemma RootStays(s: State, root: nat)
    requires SoundState(s) && root in s.t
    ensures root !in Lost(s.t, s.place, root)
  {
    SelfHangs(s.t, s.place, root);
  }

  lemma EmptyRoot(t: Tables)
    requires t == map[0 := EMPTY]
    ensures 0 in t && |t[0]| == ENTRIES && t[0][0].Invalid? && t.Keys == {0} && |{1, 2, 3}| == 3
  {
  }

  lemma PageCovered()
    ensures Covers(0, 2, 511)
  {
    assert Span(3) == 512 * (512 * 512);
  }

  lemma OneLost(pm: PageManager, h: Holdings)
    requires pm.spent == {} && pm.LostTables() != {} && pm.LostTables() <= pm.tables.Keys &&
      pm.tables.Keys !! pm.frames && Accounted(h, pm.Books())
    requires h.tables == {0} && h.free == {1, 2, 3} && h.spent == {} && 0 in pm.tables && 0 !in pm.LostTables()
    ensures pm.tables.Keys + pm.frames == {0, 1, 2, 3} && pm.frames != {1, 2, 3}
  {
    hide Lost;
    var lost := pm.LostTables();
    var b := pm.Books();
    assert b.tables + b.free + b.spent == {0, 1, 2, 3};
    assert pm.tables.Keys + pm.frames == b.tables + b.free + b.spent;
    var c :| c in lost;
    assert c in {0, 1, 2, 3} && c !in pm.frames;
  }

  lemma SameRange(t: Tables, root: nat, top: nat, j: Job, k: Job)
    requires j.v == k.v && j.size == k.size && Opened(t, root, 0, top, j, j.size)
    ensures Opened(t, root, 0, top, k, k.size)
  {
    hide Stops;
  }

  lemma CleanedUnmapped(t: Tables, u: Tables, w: Tables, root: nat, top: nat, f: Fill, j: Job)
    requires Mapped(t, u, root, top, f, j) && f.unmap
    requires forall vp: nat :: Covers(0, top, vp) ==> Walk(w, root, top, vp) == Walk(u, root, top, vp)
    ensures Unmapped(t, w, root, top, j)
  {
    hide Walk, Covers;
  }

  /** One associate_address call per page, the way non-linear areas are mapped. */
  method PageByPage(pm: PageManager, j: Job, attr: Attr) returns (err: Option<PagingError>)
    requires pm.Valid() && j.v + j.size <= Span(pm.top + 1)
    modifies pm`tables, pm`frames, pm`place
    ensures pm.Valid()
    ensures err == None ==> Mapped(old(pm.tables), pm.tables, pm.root, pm.top, Fill(attr, false), j)
  {
    hide Walk, Span, Based, Nice, Shaped, Filled, Blocked;
    FilledNone(pm.tables, pm.root, 0, pm.top, Fill(attr, false), j);
    for i := 0 to j.size
      invariant pm.Valid() && Filled(old(pm.tables), pm.tables, pm.root, 0, pm.top, Fill(attr, false), j, i)
    {
      assert ((j.p + i) * PAGE) / PAGE == j.p + i && ((j.v + i) * PAGE) / PAGE == j.v + i;
      ghost var u := pm.tables;
      err := pm.AssociateAddress((j.p + i) * PAGE, (j.v + i) * PAGE, attr);
      if err.Some? {
        return;
      }
      FilledPage(u, pm.tables, pm.root, pm.top, attr, Advance(j, i));
      FilledTrans(old(pm.tables), u, pm.tables, pm.root, 0, pm.top, Fill(attr, false), j, i, 1);
    }
    return None;
  }

  lemma FilledPage(t: Tables, t': Tables, root: nat, top: nat, attr: Attr, j: Job)
    requires forall vp: nat :: Covers(0, top, vp) ==>
      Walk(t', root, top, vp) == if vp == j.v then Some(Mapping(j.p, attr)) else Walk(t, root, top, vp)
    ensures Filled(t, t', root, 0, top, Fill(attr, false), j, 1)
  {
    hide Walk, Covers;
  }
}
