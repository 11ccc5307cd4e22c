/** What a call, a round or a descent of `_associate_area` (src/arch/aarch64/paging/mod.rs) has done, as one statement,
    and how such statements follow each other and are seen from the table above. */
module AreaDone {
  import opened Collections
  import opened Radix
  import opened PageTable
  import opened TablePaths
  import opened Paging
  import opened Area
  import opened AreaPaths
  import opened AreaErased
  import opened AreaForecast
  import opened AreaLoss

  /** The slots `i..next` of table `a` were worked on with result `r`: it ended and left tables as forecast by `d`; a
      success took the job `j` to its rest, and mapped as asked exactly if `nice`; an unmap took the pages `w` away. */
  ghost predicate Done(s: State, s': State, a: nat, base: nat, n: nat, f: Fill, j: Job, i: nat, next: nat, nice: bool,
                       r: Result<Job>, d: Trip, w: set<nat>) {
    && SoundState(s') && AreaFrame(s, s', n, base, base + Span(n + 1))
    && AreaErrors(s, s', a, base, n, f, j, r)
    && a in s.t && a in s'.t && KeptSlots(s.t[a], s'.t[a], i, next)
    && Ends(r, s', d) && Leaves(s, s', a, d)
    && (f.unmap ==> Unmaps(s.t, s'.t, a, base, n, Child(base, n, i), Child(base, n, next), j, nice, r, w))
    && (r.Ok? ==> DoneWell(s.t, s'.t, a, base, n, f, j, i, next, nice, r.value))
    && (r.Err? && nice ==> PartFilled(s.t, s'.t, a, base, n, f, j))
  }

  /** Some first pages of the job translate as asked, the table's other pages as before. */
  ghost predicate PartFilled(t: Tables, t': Tables, a: nat, base: nat, n: nat, f: Fill, j: Job) {
    exists k: nat :: FilledTo(t, t', a, base, n, f, j, k)
  }

  ghost predicate FilledTo(t: Tables, t': Tables, a: nat, base: nat, n: nat, f: Fill, j: Job, k: nat) {
    k <= j.size && j.v + k <= base + Span(n + 1) && Filled(t, t', a, base, n, f, j, k)
  }

  lemma PartNone(t: Tables, t': Tables, a: nat, base: nat, n: nat, f: Fill, j: Job)
    requires SameWalks(t', t, a, base, n) && j.v <= base + Span(n + 1)
    ensures PartFilled(t, t', a, base, n, f, j)
  {
    hide Walk, Span;
    assert FilledTo(t, t', a, base, n, f, j, 0);
  }

  lemma PartThen(t: Tables, u: Tables, t': Tables, a: nat, base: nat, n: nat, f: Fill, j: Job, rest: Job)
    requires Moved(j, rest) && Filled(t, u, a, base, n, f, j, rest.v - j.v) && PartFilled(u, t', a, base, n, f, rest)
    ensures PartFilled(t, t', a, base, n, f, j)
  {
    hide Filled, Span;
    var k: nat :| FilledTo(u, t', a, base, n, f, rest, k);
    FilledTrans(t, u, t', a, base, n, f, j, rest.v - j.v, k);
    assert FilledTo(t, t', a, base, n, f, j, rest.v - j.v + k);
  }

  /** What was filled below slot `i`, seen from the table above. */
  lemma PartUp(s: State, s': State, a: nat, n: nat, base: nat, i: nat, c: nat, f: Fill, j: Job)
    requires SoundState(s) && SoundState(s') && a in s.t && s.place[a].level == n > 0 && s.place[a].base == base
    requires i < ENTRIES && s.t[a][i] == Table(c) && Child(base, n, i) <= j.v
    requires AreaFrame(s, s', n - 1, Child(base, n, i), Child(base, n, i) + Span(n))
    requires PartFilled(s.t, s'.t, c, Child(base, n, i), n - 1, f, j)
    ensures PartFilled(s.t, s'.t, a, base, n, f, j)
  {
    hide Index, Based, Child, Walk, Shaped;
    var cb := Child(base, n, i);
    var k: nat :| FilledTo(s.t, s'.t, c, cb, n - 1, f, j, k);
    ChildStep(base, n, i);
    ChildStep(base, n, 0);
    ChildMono(base, n, i + 1, ENTRIES);
    TableFacts(s.t, s.place, a);
    KeptInArea(s, s', n - 1, cb, cb + Span(n), a);
    forall vp: nat | Covers(base, n, vp)
      ensures Walk(s'.t, a, n, vp) == if j.v <= vp < j.v + k then Target(f, j, vp) else Walk(s.t, a, n, vp)
    {
      if Covers(cb, n - 1, vp) {
        SlotWalk(s, a, n, base, i, c, vp);
        SlotWalk(s', a, n, base, i, c, vp);
      } else {
        AreaFrameWalk(s, s', n - 1, cb, cb + Span(n), a, vp);
      }
    }
    assert FilledTo(s.t, s'.t, a, base, n, f, j, k);
  }

  /** Where slot `i` was and is invalid and the other paths are the same, so are all translations. */
  lemma BackWalks(t: Tables, t': Tables, a: nat, base: nat, n: nat, i: nat)
    requires Based(base, n) && a in t && a in t' && t'[a] == t[a] && |t[a]| == ENTRIES && i < ENTRIES &&
      t[a][i].Invalid?
    requires Elsewhere(t, t', a, base, n, Child(base, n, i), Child(base, n, i + 1))
    ensures SameWalks(t', t, a, base, n)
  {
    hide Index, Based, Child, Span, SamePath;
    forall vp: nat | Covers(base, n, vp) ensures Walk(t', a, n, vp) == Walk(t, a, n, vp) {
      if Child(base, n, i) <= vp < Child(base, n, i + 1) {
        SlotUnique(base, n, vp, i);
      } else {
        SamePathWalk(t, t', a, n, vp);
      }
    }
  }

  ghost predicate DoneWell(t: Tables, t': Tables, a: nat, base: nat, n: nat, f: Fill, j: Job, i: nat, next: nat,
                           nice: bool, rest: Job) {
    && Elsewhere(t, t', a, base, n, Child(base, n, i), Child(base, n, next))
    && Stepped(t, t', a, base, n, f, j, Child(base, n, i), Child(base, n, next), nice, rest)
    && (nice && !f.unmap ==> rest.v >= j.v && Opened(t', a, base, n, j, rest.v - j.v))
  }

  /** The table `a` and the cursor of the job in its slot `i`. */
  ghost predicate Ready(s: State, a: nat, base: nat, n: nat, j: Job, i: nat) {
    && SoundState(s) && a in s.t && a in s.place && |s.t[a]| == ENTRIES && s.place[a].level == n
    && s.place[a].base == base && Based(base, n)
    && i < ENTRIES && Child(base, n, i) <= j.v < Child(base, n, i + 1)
  }

  lemma IsReady(s: State, a: nat, base: nat, n: nat, j: Job)
    requires SoundState(s) && a in s.t && s.place[a].level == n && s.place[a].base == base && Covers(base, n, j.v)
    ensures Ready(s, a, base, n, j, Index(j.v, n))
  {
    hide Index, Based, Child, Covers;
    TableFacts(s.t, s.place, a);
    SlotOfPage(base, n, j.v);
  }

  lemma ReadyIn(s: State, a: nat, base: nat, n: nat, j: Job, i: nat)
    requires Ready(s, a, base, n, j, i)
    ensures j.v <= base + Span(n + 1)
  {
    hide Child, Span, Based, Shaped;
    ChildStep(base, n, 0);
    ChildMono(base, n, i + 1, ENTRIES);
  }

  /** After a successful step the cursor stands in the next slot. */
  lemma StillReady(s: State, u: State, a: nat, base: nat, n: nat, f: Fill, j: Job, i0: nat, i: nat, rest: Job, g: Trip,
                   x: set<nat>)
    requires Ready(s, a, base, n, j, i0) && Done(s, u, a, base, n, f, j, i0, i, Nice(j, n), Ok(rest), g, x) &&
      rest.size > 0 && i < ENTRIES
    ensures Ready(u, a, base, n, rest, i) && Moved(j, rest) && (Nice(j, n) ==> Nice(rest, n))
  {
    hide AreaFrame, AreaErrors, KeptSlots, Ends, Leaves, Unmaps, Elsewhere, Opened, Nice, Based, Child, Span, Shaped,
      Below, Filled, Astray, PartFilled;
    KeptInArea(s, u, n, base, base + Span(n + 1), a);
    TableFacts(u.t, u.place, a);
    SteppedCursor(s.t, u.t, a, base, n, f, j, Child(base, n, i0), i, Nice(j, n), rest);
  }

  // ---------------------------------------------------------------- one after the other

  lemma WellThen(t: Tables, u: Tables, t': Tables, a: nat, base: nat, n: nat, f: Fill, j: Job, i0: nat, i: nat,
                 next: nat, rest: Job, rest': Job)
    requires Based(base, n) && Covers(base, n, j.v) && i0 < i < next && rest.size > 0 &&
      Child(base, n, i0) <= j.v < Child(base, n, i0 + 1)
    requires DoneWell(t, u, a, base, n, f, j, i0, i, Nice(j, n), rest) &&
      DoneWell(u, t', a, base, n, f, rest, i, next, Nice(rest, n), rest')
    ensures DoneWell(t, t', a, base, n, f, j, i0, next, Nice(j, n), rest')
  {
    hide Elsewhere, Stepped, Opened, Nice, Based, Child, Covers;
    ChildMono(base, n, i0, i);
    ChildMono(base, n, i, next);
    ElsewhereTrans(t, u, t', a, base, n, Child(base, n, i0), Child(base, n, i), Child(base, n, next));
    StepMoved(t, u, a, base, n, f, j, Child(base, n, i0), Child(base, n, i), rest);
    StepMoved(u, t', a, base, n, f, rest, Child(base, n, i), Child(base, n, next), rest');
    StepAgain(t, u, t', a, base, n, f, j, i0, i, next, rest, rest');
    if Nice(j, n) && !f.unmap { LaterOpen(t, u, t', a, base, n, f, j, i0, i, next, rest, rest'); }
  }

  lemma ErrorsThen(s: State, u: State, v: State, a: nat, base: nat, n: nat, f: Fill, j: Job, i0: nat, i: nat, rest: Job,
                   r: Result<Job>)
    requires Based(base, n) && i0 < i && rest.size > 0 && AreaErrors(s, u, a, base, n, f, j, Ok(rest)) &&
      AreaErrors(u, v, a, base, n, f, rest, r)
    requires DoneWell(s.t, u.t, a, base, n, f, j, i0, i, Nice(j, n), rest)
    ensures AreaErrors(s, v, a, base, n, f, j, r)
  {
    hide Elsewhere, Stepped, Opened, Nice, Based, Child, InTheWay, StopsIn, Congruent;
    if r == Err(EntryIsNotFound) { LaterError(s.t, u.t, a, base, n, f, j, i0, i, rest); }
  }

  lemma DoneThen(s: State, u: State, v: State, a: nat, base: nat, n: nat, f: Fill, j: Job, i0: nat, i: nat, next: nat,
                 rest: Job, r: Result<Job>,
                 g: Trip, e: Trip, x: set<nat>, y: set<nat>)
    requires Ready(s, a, base, n, j, i0) && i0 < i < next && i < ENTRIES && rest.size > 0
    requires Done(s, u, a, base, n, f, j, i0, i, Nice(j, n), Ok(rest), g, x) &&
      Done(u, v, a, base, n, f, rest, i, next, Nice(rest, n), r, e, y)
    ensures Done(s, v, a, base, n, f, j, i0, next, Nice(j, n), r, After(g, e), x + y)
  {
    hide AreaFrame, AreaErrors, KeptSlots, Leaves, Unmaps, DoneWell, Nice, Child, Span, Shaped, Covers, PartFilled;
    StillReady(s, u, a, base, n, f, j, i0, i, rest, g, x);
    AreaFrameTrans(s, u, v, n, base, base + Span(n + 1));
    FrameKeys(s, u, n, base, base + Span(n + 1));
    FrameKeys(u, v, n, base, base + Span(n + 1));
    ErrorsThen(s, u, v, a, base, n, f, j, i0, i, rest, r);
    LeavesThen(s, u, v, a, i0, i, next, g, e);
    SlotUnique(base, n, j.v, i0);
    if f.unmap { UnmapsAgain(s.t, u.t, v.t, a, base, n, j, i0, i, next, rest, r, x, y); }
    if r.Ok? { WellThen(s.t, u.t, v.t, a, base, n, f, j, i0, i, next, rest, r.value); }
    if r.Err? && Nice(j, n) {
      WellFilled(s.t, u.t, a, base, n, f, j, i0, i, rest);
      PartThen(s.t, u.t, v.t, a, base, n, f, j, rest);
    }
  }

  lemma WellFilled(t: Tables, u: Tables, a: nat, base: nat, n: nat, f: Fill, j: Job, i0: nat, i: nat, rest: Job)
    requires DoneWell(t, u, a, base, n, f, j, i0, i, true, rest)
    ensures Moved(j, rest) && Filled(t, u, a, base, n, f, j, rest.v - j.v)
  {
    hide Filled, Elsewhere, Opened, Below, Child, Span;
  }

  lemma UnmapsAgain(t: Tables, u: Tables, t': Tables, a: nat, base: nat, n: nat, j: Job, i0: nat, i: nat, next: nat,
                    rest: Job, r: Result<Job>, x: set<nat>, y: set<nat>)
    requires i0 <= i <= next && Moved(j, rest) &&
      Unmaps(u, t', a, base, n, Child(base, n, i), Child(base, n, next), rest, Nice(rest, n), r, y)
    requires Unmaps(t, u, a, base, n, Child(base, n, i0), Child(base, n, i), j, Nice(j, n), Ok(rest), x)
    ensures Unmaps(t, t', a, base, n, Child(base, n, i0), Child(base, n, next), j, Nice(j, n), r, x + y)
  {
    hide Unmaps, Child, Nice;
    ChildMono(base, n, i0, i);
    ChildMono(base, n, i, next);
    UnmapsThen(t, u, t', a, base, n, Child(base, n, i0), Child(base, n, i), Child(base, n, next), j, Nice(j, n),
               Nice(rest, n), rest, r, x, y);
  }

  // ---------------------------------------------------------------- the whole table

  /** A call ends where its last round ends. */
  lemma DoneWhole(s: State, s': State, a: nat, base: nat, n: nat, f: Fill, j: Job, i0: nat, i: nat, r: Result<Job>,
                  d: Trip, w: set<nat>)
    requires n > 0 && Ready(s, a, base, n, j, i0) && i0 < i <= ENTRIES && (r.Ok? ==> r.value.size == 0 || i == ENTRIES)
    requires Done(s, s', a, base, n, f, j, i0, i, Nice(j, n), r, d, w)
    ensures Done(s, s', a, base, n, f, j, 0, ENTRIES, Nice(j, n), r, d, w)
  {
    hide AreaFrame, AreaErrors, Leaves, Unmaps, Nice, Child, Span, Shaped, Covers, Elsewhere, Opened, Stepped,
      PartFilled;
    SlotUnique(base, n, j.v, i0);
    ChildStep(base, n, 0);
    if f.unmap { UnmapsWhole(s.t, s'.t, a, base, n, j, i0, i, r, w); }
    if r.Ok? {
      ElsewhereWiden(s.t, s'.t, a, base, n, i0, i);
      StepsDone(s.t, s'.t, a, base, n, f, j, i0, i, r.value);
    }
  }

  lemma ElsewhereWiden(t: Tables, t': Tables, a: nat, base: nat, n: nat, i0: nat, i: nat)
    requires i0 <= i <= ENTRIES && Elsewhere(t, t', a, base, n, Child(base, n, i0), Child(base, n, i))
    ensures Elsewhere(t, t', a, base, n, Child(base, n, 0), Child(base, n, ENTRIES))
  {
    hide Child, SamePath, Covers;
    ChildMono(base, n, 0, i0);
    ChildMono(base, n, i, ENTRIES);
  }

  lemma UnmapsWhole(t: Tables, t': Tables, a: nat, base: nat, n: nat, j: Job, i0: nat, i: nat, r: Result<Job>,
                    w: set<nat>)
    requires i0 <= i <= ENTRIES && Unmaps(t, t', a, base, n, Child(base, n, i0), Child(base, n, i), j, Nice(j, n), r, w)
    ensures Unmaps(t, t', a, base, n, Child(base, n, 0), Child(base, n, ENTRIES), j, Nice(j, n), r, w)
  {
    hide Erased, Child, Nice;
    ChildMono(base, n, 0, i0);
    ChildMono(base, n, i, ENTRIES);
    ErasedWiden(t, t', a, base, n, Child(base, n, i0), Child(base, n, i), Child(base, n, 0), Child(base, n, ENTRIES),
                w);
  }

  /** An empty job leaves everything as it is. */
  lemma NothingDone(s: State, a: nat, base: nat, n: nat, f: Fill, j: Job, i0: nat, free: nat)
    requires n > 0 && Ready(s, a, base, n, j, i0) && j.size == 0 && free == |s.frames|
    ensures Done(s, s, a, base, n, f, j, 0, ENTRIES, Nice(j, n), Ok(j), Trip(Through, j, free, false, false), {})
  {
    hide AreaFrame, Leaves, Nice, Child, Span, Shaped, Covers, Elsewhere, Opened, Stepped, Erased, InTheWay, StopsIn,
      Congruent, PartFilled;
    var d := Trip(Through, j, free, false, false);
    SlotUnique(base, n, j.v, i0);
    ChildStep(base, n, 0);
    AreaFrameRefl(s, n, base, base + Span(n + 1));
    SameSlots(s.t[a], 0, ENTRIES);
    LeavesNone(s, a, d);
    OpenedNone(s.t, a, base, n, j, 0);
    ElsewhereRefl(s, a, base, n, Child(base, n, i0));
    ElsewhereWiden(s.t, s.t, a, base, n, i0, i0);
    StepsDone(s.t, s.t, a, base, n, f, j, i0, i0, j);
    ErasedNone(s.t, a, base, n, Child(base, n, 0), Child(base, n, ENTRIES));
    assert Nice(j, n) by { EmptyNice(j, n); }
  }

  lemma EmptyNice(j: Job, n: nat)
    requires j.size == 0
    ensures Nice(j, n)
  {
  }

  /** A page table has been worked on. */
  lemma PagesDone(s: State, s': State, a: nat, base: nat, f: Fill, j: Job, rest: Job, d: Trip)
    requires SoundState(s) && SoundState(s') && a in s.t && s.place[a].level == 0 && s.place[a].base == base &&
      Covers(base, 0, j.v)
    requires s'.t.Keys == s.t.Keys && s'.place == s.place && s'.frames == s.frames &&
      AreaFrame(s, s', 0, base, base + Span(1))
    requires rest == Advance(j, Reach(j, base, 0)) && Filled(s.t, s'.t, a, base, 0, f, j, Reach(j, base, 0))
    requires d == Forecast(s.t, Some(a), 0, j, |s.frames|, f.unmap)
    ensures Done(s, s', a, base, 0, f, j, 0, ENTRIES, Nice(j, 0), Ok(rest), d, Pages(j.v, rest.v))
  {
    hide AreaFrame, Leaves, Nice, Child, Shaped, Filled, Opened, Stepped, Erased, InTheWay, StopsIn, Congruent,
      Forecast, Pages, SamePath, PartFilled;
    TableFacts(s.t, s.place, a);
    TableFacts(s'.t, s'.place, a);
    ChildStep(base, 0, 0);
    PagesStepped(s.t, s'.t, a, base, f, j, rest);
    OpenedNone(s'.t, a, base, 0, j, rest.v - j.v);
    PagesForecast(s.t, a, base, j, |s.frames|, f.unmap);
    PagesLeave(s, s', a, d);
    if f.unmap { PagesUnmap(s.t, s'.t, a, base, f, j, rest); }
  }

  lemma PagesUnmap(t: Tables, t': Tables, a: nat, base: nat, f: Fill, j: Job, rest: Job)
    requires Based(base, 0) && Covers(base, 0, j.v) && f.unmap && rest == Advance(j, Reach(j, base, 0))
    requires Filled(t, t', a, base, 0, f, j, Reach(j, base, 0))
    ensures Unmaps(t, t', a, base, 0, base, base + Span(1), j, Nice(j, 0), Ok(rest), Pages(j.v, rest.v))
  {
    hide Walk, Pages, Erased, Filled;
    FilledErased(t, t', a, base, 0, f, j, rest.v - j.v);
    ErasedWiden(t, t', a, base, 0, j.v, rest.v, base, base + Span(1), Pages(j.v, rest.v));
  }

  // ---------------------------------------------------------------- rounds and forecasts

  /** The forecast of the rounds is that of the next round and of the rounds after it. */
  lemma RoundsForecast(s: State, u: State, v: State, a: nat, base: nat, n: nat, lo: nat, i: nat, next: nat, rest: Job,
                       unmap: bool, r: Result<Job>)
    requires n > 0 && i < ENTRIES && rest.size > 0 && Based(base, n) &&
      Elsewhere(s.t, u.t, a, base, n, lo, Child(base, n, i))
    requires Ends(r, v, ForecastRound(u.t, Some(a), n, i, rest, |u.frames|, unmap)) &&
      (r.Ok? ==> next == NextSlot(rest, n, i))
    ensures var d := ForecastRound(u.t, Some(a), n, i, rest, |u.frames|, unmap);
      && (r.Ok? ==>
            next <= ENTRIES && ForecastRounds(s.t, Some(a), n, i, rest, |u.frames|, unmap) ==
              After(d, ForecastRounds(s.t, Some(a), n, next, r.value, |v.frames|, unmap)))
      && (r.Err? ==> ForecastRounds(s.t, Some(a), n, i, rest, |u.frames|, unmap) == d)
  {
    hide Elsewhere, SameFrom, ForecastRound, NextSlot, Based, Child;
    SameAfter(s.t, u.t, a, base, n, lo, i);
    SameRound(s.t, u.t, a, base, n, i, rest, |u.frames|, unmap);
  }

  /** A round without block descriptors is the descent. */
  lemma NoBlocks(t: Tables, a: nat, n: nat, i: nat, j: Job, free: nat, unmap: bool)
    requires n > 0 && i < ENTRIES && j.size > 0 && !Blocky(j, n)
    ensures ForecastRound(t, Some(a), n, i, j, free, unmap) == ForecastSlot(t, Some(a), n, i, j, free, unmap)
    ensures NextSlot(j, n, i) == i + 1
  {
    hide Blocky, ForecastSlot;
    NoneAmong(t, a, i);
  }

  lemma NoneAmong(t: Tables, a: nat, i: nat)
    ensures !TableAmong(t, Some(a), i, i)
  {
  }

  /** A round is its block descriptors and then the descent. */
  lemma BlocksForecast(s: State, u: State, a: nat, base: nat, n: nat, i0: nat, i: nat, j: Job, rest: Job, unmap: bool)
    requires n > 0 && i0 < i < ENTRIES && j.size > 0 && rest.size > 0 && Based(base, n)
    requires Blocky(j, n) && (rest, i) == BlockRun(j, n, i0) && u.frames == s.frames
    requires Elsewhere(s.t, u.t, a, base, n, Child(base, n, i0), Child(base, n, i))
    ensures ForecastRound(s.t, Some(a), n, i0, j, |s.frames|, unmap) ==
      After(Trip(Through, rest, |u.frames|, false, TableAmong(s.t, Some(a), i0, i)),
            ForecastSlot(u.t, Some(a), n, i, rest, |u.frames|, unmap))
    ensures NextSlot(j, n, i0) == i + 1
  {
    hide Elsewhere, SameFrom, ForecastSlot, Based, Child, BlockRun, Blocky, TableAmong;
    SameAfter(s.t, u.t, a, base, n, Child(base, n, i0), i);
    SameForecastSlot(s.t, u.t, a, base, n, i, rest, |u.frames|, unmap);
  }

  /** The block descriptors used up the job or the table. */
  lemma OnlyBlocks(t: Tables, a: nat, n: nat, i0: nat, i: nat, j: Job, rest: Job, free: nat, unmap: bool)
    requires n > 0 && i0 < ENTRIES && j.size > 0 && Blocky(j, n) && (rest, i) == BlockRun(j, n, i0) &&
      (rest.size == 0 || i == ENTRIES)
    ensures ForecastRound(t, Some(a), n, i0, j, free, unmap) == Trip(Through, rest, free, false,
      TableAmong(t, Some(a), i0, i))
    ensures NextSlot(j, n, i0) == i
  {
    hide ForecastSlot, BlockRun, Blocky, TableAmong;
  }

  // ---------------------------------------------------------------- the table below a slot

  /** What was done to the table below slot `i` is done to the slot. */
  lemma DoneBelow(s: State, s': State, a: nat, base: nat, n: nat, f: Fill, j: Job, i: nat, c: nat, r: Result<Job>,
                  d: Trip, w: set<nat>)
    requires n > 0 && Ready(s, a, base, n, j, i) && s.t[a][i] == Table(c) && Covers(Child(base, n, i), n - 1, j.v)
    requires Done(s, s', c, Child(base, n, i), n - 1, f, j, 0, ENTRIES, Nice(j, n - 1), r, d, w)
    ensures Done(s, s', a, base, n, f, j, i, i + 1, Nice(j, n - 1), r, d.(made := false), w)
  {
    hide AreaFrame, AreaErrors, KeptSlots, Leaves, Nice, Child, Span, Shaped, Covers, Elsewhere, Opened, Stepped,
      Erased, PartFilled;
    var cb := Child(base, n, i);
    ChildStep(cb, n - 1, 0);
    LiftedFrame(s, s', n, base, i);
    LiftedElsewhere(s, s', a, n, base, i);
    KeptInArea(s, s', n - 1, cb, cb + Span(n), a);
    LiftedLeaves(s, s', a, base, n, i, c, d);
    ErrorsBelow(s, s', a, base, n, f, j, i, c, r);
    if f.unmap { ErasedUp(s, s', a, n, base, i, c, w); }
    if r.Ok? {
      Lifted(s, s', a, n, base, i, c, f, j, Nice(j, n - 1), r.value);
      BelowOpened(s, s', a, n, base, i, c, f, j, r.value);
    } else if Nice(j, n - 1) {
      PartUp(s, s', a, n, base, i, c, f, j);
    }
  }

  lemma ErrorsBelow(s: State, s': State, a: nat, base: nat, n: nat, f: Fill, j: Job, i: nat, c: nat, r: Result<Job>)
    requires n > 0 && Ready(s, a, base, n, j, i) && s.t[a][i] == Table(c) &&
      AreaErrors(s, s', c, Child(base, n, i), n - 1, f, j, r)
    ensures AreaErrors(s, s', a, base, n, f, j, r)
  {
    hide InTheWay, StopsIn, Congruent, Child, Shaped;
    if r == Err(EntryIsNotFound) {
      InTheWayBelow(s, a, n, base, i, c, f, j);
      if Congruent(j, n) {
        CongruentDown(j, n);
        StopsBelow(s, a, n, base, i, c, j);
      }
    }
  }

  /** Nothing is done where a block descriptor, or for an unmap an invalid one, is in the way. */
  lemma DoneStuck(s: State, a: nat, base: nat, n: nat, f: Fill, j: Job, i: nat, d: Trip)
    requires n > 0 && Ready(s, a, base, n, j, i) && j.size > 0 && !Blocky(j, n) &&
      (s.t[a][i].Leaf? || (s.t[a][i].Invalid? && f.unmap))
    requires d.end.NotFound? && !d.made && !d.loses
    ensures Done(s, s, a, base, n, f, j, i, i + 1, Nice(j, n - 1), Err(EntryIsNotFound), d, {})
  {
    hide AreaFrame, KeptSlots, Leaves, Nice, Child, Span, Shaped, Erased, InTheWay, StopsIn, Congruent, Blocky,
      PartFilled;
    InTheWayHere(s, a, n, base, i, f, j);
    if Congruent(j, n) { StopsHere(s, a, n, base, i, j); }
    AreaFrameRefl(s, n, base, base + Span(n + 1));
    SameSlots(s.t[a], i, i + 1);
    LeavesNone(s, a, d);
    ErasedNone(s.t, a, base, n, Child(base, n, i), Child(base, n, i + 1));
    SameRefl(s.t, a, base, n);
    PartNone(s.t, s.t, a, base, n, f, j) by { ReadyIn(s, a, base, n, j, i); }
  }

  // ---------------------------------------------------------------- a new table

  /** The new table `c` was made in `s1`, filled in `u` and is hung. */
  lemma DoneNew(s: State, s1: State, u: State, a: nat, base: nat, n: nat, f: Fill, j: Job, i: nat, c: nat, rest: Job,
                d: Trip, w: set<nat>)
    requires n > 0 && Ready(s, a, base, n, j, i) && s.t[a][i].Invalid? && c in s.frames && !f.unmap &&
      Covers(Child(base, n, i), n - 1, j.v)
    requires s1 == Made(s, c, Place(n - 1, Child(base, n, i), a), EMPTY) && SoundState(s1)
    requires Done(s1, u, c, Child(base, n, i), n - 1, f, j, 0, ENTRIES, Nice(j, n - 1), Ok(rest), d, w)
    ensures a in u.t && |u.t[a]| == ENTRIES
    ensures Done(s, Hung(u, a, i, c), a, base, n, f, j, i, i + 1, Nice(j, n - 1), Ok(rest), d.(made := true), {})
  {
    hide AreaFrame, KeptSlots, Leaves, Nice, Child, Span, Shaped, Covers, Elsewhere, Opened, Stepped, EMPTY, InTheWay,
      StopsIn, Congruent, Unmaps, PartFilled;
    var cb := Child(base, n, i);
    ChildStep(cb, n - 1, 0);
    PlaceOf(s, a);
    MadeHas(s, c, Place(n - 1, cb, a), EMPTY, a);
    KeptInArea(s1, u, n - 1, cb, cb + Span(n), a);
    KeptInArea(s1, u, n - 1, cb, cb + Span(n), c);
    TableFacts(u.t, u.place, a);
    MadeFrame(s, s1, u, n, base, i, c, Place(n - 1, cb, a));
    MadeStepped(s, s1, u, a, n, base, i, c, f, j, Nice(j, n - 1), rest);
    MadeElsewhere(s, s1, u, a, n, base, i, c);
    if Nice(j, n - 1) { HungOpened(s, u, a, n, base, i, c, f, j, rest); }
    HungLeaves(s, s1, u, a, base, n, i, c, d);
  }

  /** The new table could not be filled and was given back in `v`. */
  lemma DoneBack(s: State, s1: State, u: State, v: State, a: nat, base: nat, n: nat, f: Fill, j: Job, i: nat, c: nat,
                 e: PagingError, d: Trip, w: set<nat>)
    requires n > 0 && Ready(s, a, base, n, j, i) && s.t[a][i].Invalid? && c in s.frames && !f.unmap
    requires s1 == Made(s, c, Place(n - 1, Child(base, n, i), a), EMPTY) && SoundState(s1)
    requires Done(s1, u, c, Child(base, n, i), n - 1, f, j, 0, ENTRIES, Nice(j, n - 1), Err(e), d, w)
    requires v == State(u.t - {c}, u.place - {c}, u.frames) || v == State(u.t - {c}, u.place - {c}, u.frames + {c})
    ensures Done(s, v, a, base, n, f, j, i, i + 1, Nice(j, n - 1), Err(e),
                 d.(made := false, loses := d.made || d.loses), {})
  {
    hide AreaFrame, KeptSlots, Leaves, Nice, Child, Span, Shaped, Elsewhere, EMPTY, InTheWay, StopsIn, Congruent,
      Unmaps, PartFilled;
    var cb := Child(base, n, i);
    ChildStep(cb, n - 1, 0);
    PlaceOf(s, a);
    MadeHas(s, c, Place(n - 1, cb, a), EMPTY, a);
    NothingInTheWay(s1.t, c, cb, n - 1, f, j);
    KeptInArea(s1, u, n - 1, cb, cb + Span(n), a);
    KeptInArea(s1, u, n - 1, cb, cb + Span(n), c);
    MadeFrame(s, s1, u, n, base, i, c, Place(n - 1, cb, a));
    GivenBack(u, a, n, base, i, c);
    BackFrame(s, u, n, base, c);
    BackElsewhere(s, s1, u, a, n, base, i, c);
    assert v.t.Keys == u.t.Keys - {c};
    BackLeaves(s, s1, u, v, a, base, n, i, c, d);
    BackWalks(s.t, v.t, a, base, n, i);
    PartNone(s.t, v.t, a, base, n, f, j) by { ReadyIn(s, a, base, n, j, i); }
  }

  /** No frame was left for a new table. */
  lemma DoneShort(s: State, a: nat, base: nat, n: nat, f: Fill, j: Job, i: nat, d: Trip)
    requires n > 0 && Ready(s, a, base, n, j, i) && !f.unmap && |s.frames| <= 1 && d.end.RanOut? && !d.made && !d.loses
    ensures Done(s, s, a, base, n, f, j, i, i + 1, Nice(j, n - 1), Err(MemoryCacheRanOut), d, {})
  {
    hide AreaFrame, KeptSlots, Leaves, Nice, Child, Span, Shaped, InTheWay, StopsIn, Congruent, PartFilled;
    AreaFrameRefl(s, n, base, base + Span(n + 1));
    SameSlots(s.t[a], i, i + 1);
    LeavesNone(s, a, d);
    SameRefl(s.t, a, base, n);
    PartNone(s.t, s.t, a, base, n, f, j) by { ReadyIn(s, a, base, n, j, i); }
  }

  // ---------------------------------------------------------------- block descriptors

  /** A run of block descriptors. */
  lemma BlocksDone(s: State, s': State, a: nat, base: nat, n: nat, f: Fill, j: Job, i0: nat, i: nat, rest: Job, d: Trip)
    requires Ready(s, a, base, n, j, i0) && Blocky(j, n) && i0 < i <= ENTRIES && SoundState(s') &&
      AreaFrame(s, s', n, base, base + Span(n + 1))
    requires s'.t.Keys == s.t.Keys && s'.place == s.place && s'.frames == s.frames &&
      KeptSlots(s.t[a], s'.t[a], i0, i) && Leaves(s, s', a, d)
    requires Moved(j, rest) && rest.v - j.v == Child(base, n, i) - Child(base, n, i0)
    requires Filled(s.t, s'.t, a, base, n, f, Job(j.p, Child(base, n, i0), j.size),
                    Child(base, n, i) - Child(base, n, i0))
    requires Elsewhere(s.t, s'.t, a, base, n, Child(base, n, i0), Child(base, n, i))
    requires !f.unmap ==> forall x :: i0 <= x < i ==> s'.t[a][x].Leaf?
    requires d.end.Through? && d.rest == rest && d.free == |s.frames|
    ensures Done(s, s', a, base, n, f, j, i0, i, Nice(j, n), Ok(rest), d, Pages(Child(base, n, i0), Child(base, n, i)))
  {
    hide AreaFrame, Leaves, Nice, Child, Span, Shaped, Elsewhere, Opened, Stepped, Erased, InTheWay, StopsIn, Congruent,
      Filled, Pages, Blocky, PartFilled;
    BlocksStepped(s.t, s'.t, a, base, n, f, j, i0, i, rest);
    if !f.unmap { RunOpened(s'.t, a, base, n, j, i0, i, rest); }
    if f.unmap { BlocksUnmap(s.t, s'.t, a, base, n, f, j, i0, i, rest); }
  }

  /** A run of blocks takes away as many pages as it works off, from the start of its first slot on. */
  lemma BlocksUnmap(t: Tables, t': Tables, a: nat, base: nat, n: nat, f: Fill, j: Job, i: nat, k: nat, rest: Job)
    requires Based(base, n) && Blocky(j, n) && i < k <= ENTRIES && Child(base, n, i) <= j.v < Child(base, n, i + 1) &&
      f.unmap
    requires Filled(t, t', a, base, n, f, Job(j.p, Child(base, n, i), j.size), Child(base, n, k) - Child(base, n, i))
    requires Moved(j, rest) && rest.v - j.v == Child(base, n, k) - Child(base, n, i)
    ensures Unmaps(t, t', a, base, n, Child(base, n, i), Child(base, n, k), j, Nice(j, n), Ok(rest),
                   Pages(Child(base, n, i), Child(base, n, k)))
  {
    hide Filled, Span, Based, Nice, Blocky, Child, Erased, Pages;
    BlockyNice(base, n, i, j);
    ChildStep(base, n, 0);
    ChildMono(base, n, 0, i);
    ChildMono(base, n, i + 1, k);
    ChildMono(base, n, k, ENTRIES);
    FilledErased(t, t', a, base, n, f, Job(j.p, Child(base, n, i), j.size), Child(base, n, k) - Child(base, n, i));
  }
}
