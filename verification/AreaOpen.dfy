/** What the forecast of `_associate_area` (src/arch/aarch64/paging/mod.rs) says of a range whose two cursors agree
    modulo every block: an unmap gets through only if no page of the range stops it, and a mapping with enough frames
    runs out of none and loses no table unless a covered slot holds one. */
module AreaOpen {
  import opened Collections
  import opened Radix
  import opened PageTable
  import opened Paging
  import opened Area
  import opened AreaPaths
  import opened AreaForecast

  // ---------------------------------------------------------------- where the cursor stands

  /** The cursor stands in slot `i`, or at the end of the table, or the job is done. */
  ghost predicate InSlot(base: nat, n: nat, j: Job, i: nat) {
    j.size == 0 || (if i < ENTRIES then Child(base, n, i) <= j.v < Child(base, n, i + 1)
      else j.v == Child(base, n, ENTRIES))
  }

  /** The cursor stands at `end`, or before it with nothing left. */
  ghost predicate EndsBy(rest: Job, end: nat) { rest.v <= end && (rest.size == 0 || rest.v == end) }

  lemma {:induction false} BlockRunAt(j: Job, n: nat, base: nat, i: nat)
    requires i <= ENTRIES && j.v == Child(base, n, i)
    ensures var run := BlockRun(j, n, i); Moved(j, run.0) && run.0.v == Child(base, n, run.1)
    ensures var run := BlockRun(j, n, i); run.0.size == 0 || run.1 == ENTRIES || run.0.size < Span(n)
    decreases ENTRIES - i
  {
    hide Span, Child;
    if j.size > 0 && i < ENTRIES && Span(n) <= j.size {
      ChildStep(base, n, i);
      BlockRunAt(Advance(j, Span(n)), n, base, i + 1);
    }
  }

  /** The block descriptors of a round start at the slot's first page and end at one. */
  lemma RunAt(j: Job, n: nat, base: nat, i: nat)
    requires n > 0 && Based(base, n) && Congruent(j, n) && i < ENTRIES && j.size > 0 && InSlot(base, n, j, i)
    ensures var run := Blocks(j, n, i);
      && Moved(j, run.0) && Congruent(run.0, n)
      && (run.1 > i ==> n <= BLOCK_LEVEL && j.v == Child(base, n, i) && run.0.v == Child(base, n, run.1))
      && (run.0.size > 0 && run.1 < ENTRIES ==> !Blocky(run.0, n) && InSlot(base, n, run.0, run.1))
  {
    hide Span, Child, Based, BlockRun, Congruent;
    if Blocky(j, n) {
      AlignedStart(j, n, base, i);
      BlockRunAt(j, n, base, i);
      CongruentLater(j, BlockRun(j, n, i).0, n);
      ChildStep(base, n, BlockRun(j, n, i).1);
    }
  }

  lemma AlignedStart(j: Job, n: nat, base: nat, i: nat)
    requires Based(base, n) && Congruent(j, n) && Blocky(j, n) && Child(base, n, i) <= j.v < Child(base, n, i + 1)
    ensures j.v == Child(base, n, i)
  {
    CongruentNice(j, n);
    BlockyNice(base, n, i, j);
  }

  lemma PagesMove(t: Tables, a: Option<nat>, base: nat, j: Job, free: nat, unmap: bool)
    requires Based(base, 0) && Covers(base, 0, j.v)
    ensures var d := Forecast(t, a, 0, j, free, unmap); Moved(j, d.rest) && EndsBy(d.rest, base + Span(1))
  {
    hide Index, Based;
    PageIndex(base, j.v);
  }

  /** A call that gets through leaves a cursor at the end of the table or no rest. */
  lemma {:induction false} Moves(t: Tables, a: Option<nat>, n: nat, base: nat, j: Job, free: nat, unmap: bool)
    requires Based(base, n) && Covers(base, n, j.v) && Congruent(j, n)
    ensures var d := Forecast(t, a, n, j, free, unmap);
      d.end.Through? ==> Moved(j, d.rest) && EndsBy(d.rest, base + Span(n + 1))
    decreases n, 3
  {
    hide Index, Span, Child, Based, Congruent;
    if n == 0 {
      PagesMove(t, a, base, j, free, unmap);
    } else {
      SlotOfPage(base, n, j.v);
      ChildStep(base, n, 0);
      MovesFrom(t, a, n, base, Index(j.v, n), j, free, unmap);
    }
  }

  lemma {:induction false} MovesFrom(t: Tables, a: Option<nat>, n: nat, base: nat, i: nat, j: Job, free: nat,
                                     unmap: bool)
    requires n > 0 && i <= ENTRIES && Based(base, n) && Congruent(j, n) && InSlot(base, n, j, i) &&
      j.v <= Child(base, n, ENTRIES)
    ensures var d := ForecastRounds(t, a, n, i, j, free, unmap);
      d.end.Through? ==> Moved(j, d.rest) && EndsBy(d.rest, Child(base, n, ENTRIES))
    decreases n, 2, ENTRIES - i
  {
    hide Index, Span, Child, Based, Congruent, Forecast, Blocks, TableAmong;
    if j.size > 0 && i < ENTRIES {
      var d := ForecastRound(t, a, n, i, j, free, unmap);
      RunAt(j, n, base, i);
      var run := Blocks(j, n, i);
      ChildMono(base, n, run.1, ENTRIES);
      ChildMono(base, n, if run.1 < ENTRIES then run.1 + 1 else ENTRIES, ENTRIES);
      if run.0.size > 0 && run.1 < ENTRIES {
        MovesSlot(t, a, n, base, run.1, run.0, free, unmap);
        if d.end.Through? {
          CongruentLater(j, d.rest, n);
          MovesFrom(t, a, n, base, run.1 + 1, d.rest, d.free, unmap);
        }
      } else {
        MovesFrom(t, a, n, base, run.1, run.0, free, unmap);
      }
    }
  }

  lemma {:induction false} MovesSlot(t: Tables, a: Option<nat>, n: nat, base: nat, i: nat, j: Job, free: nat,
                                     unmap: bool)
    requires n > 0 && i < ENTRIES && Based(base, n) && Congruent(j, n) && j.size > 0 && InSlot(base, n, j, i)
    ensures var d := ForecastSlot(t, a, n, i, j, free, unmap);
      d.end.Through? ==> Moved(j, d.rest) && InSlot(base, n, d.rest, i + 1) && EndsBy(d.rest, Child(base, n, i + 1))
    decreases n, 0
  {
    hide Index, Child, Based, Congruent, Forecast, Span;
    ChildBased(base, n, i);
    ChildStep(base, n, i);
    ChildStep(base, n, i + 1);
    CongruentDown(j, n);
    var cb, m := Child(base, n, i), n - 1;
    assert Covers(cb, m, j.v);
    match SlotAt(t, a, i)
    case Table(c) => Moves(t, Some(c), m, cb, j, free, unmap);
    case Leaf(_, _) =>
    case Invalid => if !unmap && free > 1 { Moves(map[], None, m, cb, j, free - 1, unmap); }
  }

  // ---------------------------------------------------------------- an unmap that gets through was not stopped

  /** Inside a range that covers the whole table nothing stops. */
  lemma {:induction false} InsideNoStop(t: Tables, c: nat, n: nat, base: nat, vp: nat, lo: nat, hi: nat)
    requires Based(base, n) && Covers(base, n, vp) && n <= BLOCK_LEVEL && lo <= base && base + Span(n + 1) <= hi
    ensures !Stops(t, c, n, base, vp, lo, hi)
    decreases n
  {
    hide Index, Child, Based, Span;
    var i := Index(vp, n);
    SlotOfPage(base, n, vp);
    ChildStep(base, n, 0);
    ChildMono(base, n, 0, i);
    ChildMono(base, n, i + 1, ENTRIES);
    ChildStep(base, n, i);
    if n > 0 && c in t && |t[c]| == ENTRIES && t[c][i].Table? {
      ChildBased(base, n, i);
      SlotCovers(base, n, vp);
      InsideNoStop(t, t[c][i].addr, n - 1, Child(base, n, i), vp, lo, hi);
    }
  }

  /** The slots that block descriptors replace do not stop. */
  lemma BlocksDoNotStop(t: Tables, a: nat, n: nat, base: nat, i: nat, k: nat, j: Job, rest: Job)
    requires 0 < n <= BLOCK_LEVEL && Based(base, n) && i < k <= ENTRIES && Moved(j, rest)
    requires j.v == Child(base, n, i) && rest.v == Child(base, n, k)
    ensures Opened(t, a, base, n, j, rest.v - j.v)
  {
    hide Index, Child, Based, Span, Covers;
    forall vp: nat | Covers(base, n, vp) && j.v <= vp < rest.v ensures !Stops(t, a, n, base, vp, j.v, j.v + j.size) {
      var x := Index(vp, n);
      SlotOfPage(base, n, vp);
      SlotFrom(base, n, vp, i);
      ChildMono(base, n, i, x);
      if x >= k { ChildMono(base, n, k, x); }
      ChildMono(base, n, x + 1, k);
      ChildStep(base, n, x);
      if a in t && |t[a]| == ENTRIES && t[a][x].Table? {
        ChildBased(base, n, x);
        SlotCovers(base, n, vp);
        InsideNoStop(t, t[a][x].addr, n - 1, Child(base, n, x), vp, j.v, j.v + j.size);
      }
    }
  }

  /** What is open below slot `i` is open seen from above. */
  lemma SlotOpened(t: Tables, a: nat, n: nat, base: nat, i: nat, c: nat, j: Job, rest: Job)
    requires n > 0 && Based(base, n) && i < ENTRIES && SlotAt(t, Some(a), i) == Table(c) && Moved(j, rest)
    requires Child(base, n, i) <= j.v && rest.v <= Child(base, n, i + 1)
    requires Opened(t, c, Child(base, n, i), n - 1, j, rest.v - j.v)
    ensures Opened(t, a, base, n, j, rest.v - j.v)
  {
    hide Index, Child, Based, Span;
    ChildStep(base, n, i);
    forall vp: nat | Covers(base, n, vp) && j.v <= vp < rest.v ensures !Stops(t, a, n, base, vp, j.v, j.v + j.size) {
      SlotUnique(base, n, vp, i);
      assert Covers(Child(base, n, i), n - 1, vp);
    }
  }

  /** Two stretches of a range, one after the other, from the boundary of a slot on. */
  lemma OpenedJoin(t: Tables, a: nat, base: nat, n: nat, j: Job, mid: Job, rest: Job, k: nat)
    requires Based(base, n) && Moved(j, mid) && Moved(mid, rest) &&
      (mid.v == Child(base, n, k) || mid == j || mid.size == 0)
    requires Opened(t, a, base, n, j, mid.v - j.v) && Opened(t, a, base, n, mid, rest.v - mid.v)
    ensures Opened(t, a, base, n, j, rest.v - j.v)
  {
    hide Stops, Covers, Based, Child;
    forall vp: nat | Covers(base, n, vp) && j.v <= vp < rest.v ensures !Stops(t, a, n, base, vp, j.v, j.v + j.size) {
      if vp >= mid.v && mid.v == Child(base, n, k) { StopsFrom(t, a, n, base, vp, mid.v, j.v, j.v + j.size, k); }
    }
  }

  /** An unmap that gets through had no page in its way that stops it. */
  lemma {:induction false} ThroughMeansOpen(t: Tables, a: nat, n: nat, base: nat, j: Job, free: nat)
    requires Based(base, n) && Covers(base, n, j.v) && Congruent(j, n)
    ensures var d := Forecast(t, Some(a), n, j, free, true);
      d.end.Through? ==> Moved(j, d.rest) && Opened(t, a, base, n, j, d.rest.v - j.v)
    decreases n, 3
  {
    hide Index, Span, Child, Based, Congruent, Opened;
    Moves(t, Some(a), n, base, j, free, true);
    var d := Forecast(t, Some(a), n, j, free, true);
    if n == 0 {
      if d.end.Through? { OpenedNone(t, a, base, 0, j, d.rest.v - j.v); }
    } else {
      SlotOfPage(base, n, j.v);
      ChildStep(base, n, 0);
      OpenFrom(t, a, n, base, Index(j.v, n), j, free);
    }
  }

  lemma {:induction false} OpenFrom(t: Tables, a: nat, n: nat, base: nat, i: nat, j: Job, free: nat)
    requires n > 0 && i <= ENTRIES && Based(base, n) && Congruent(j, n) && InSlot(base, n, j, i) &&
      j.v <= Child(base, n, ENTRIES)
    ensures var d := ForecastRounds(t, Some(a), n, i, j, free, true);
      d.end.Through? ==> Moved(j, d.rest) && Opened(t, a, base, n, j, d.rest.v - j.v)
    decreases n, 2, ENTRIES - i
  {
    hide Index, Span, Child, Based, Congruent, Forecast, Blocks, TableAmong, Opened;
    MovesFrom(t, Some(a), n, base, i, j, free, true);
    OpenedNone(t, a, base, n, j, 0);
    if j.size > 0 && i < ENTRIES {
      var d, e := ForecastRound(t, Some(a), n, i, j, free, true), ForecastRounds(t, Some(a), n, i, j, free, true);
      RunAt(j, n, base, i);
      var run := Blocks(j, n, i);
      ChildMono(base, n, if run.1 < ENTRIES then run.1 + 1 else ENTRIES, ENTRIES);
      if run.1 > i { BlocksDoNotStop(t, a, n, base, i, run.1, j, run.0); }
      if run.0.size > 0 && run.1 < ENTRIES {
        OpenSlot(t, a, n, base, run.1, run.0, free);
        if d.end.Through? {
          MovesSlot(t, Some(a), n, base, run.1, run.0, free, true);
          CongruentLater(j, d.rest, n);
          OpenFrom(t, a, n, base, run.1 + 1, d.rest, d.free);
          if e.end.Through? {
            MovesFrom(t, Some(a), n, base, run.1 + 1, d.rest, d.free, true);
            OpenedJoin(t, a, base, n, run.0, d.rest, e.rest, run.1 + 1);
            OpenedJoin(t, a, base, n, j, run.0, e.rest, run.1);
          }
        }
      }
    }
  }

  lemma {:induction false} OpenSlot(t: Tables, a: nat, n: nat, base: nat, i: nat, j: Job, free: nat)
    requires n > 0 && i < ENTRIES && Based(base, n) && Congruent(j, n) && j.size > 0 && InSlot(base, n, j, i)
    ensures var d := ForecastSlot(t, Some(a), n, i, j, free, true);
      d.end.Through? ==> Moved(j, d.rest) && Opened(t, a, base, n, j, d.rest.v - j.v)
    decreases n, 0
  {
    hide Index, Child, Based, Congruent, Forecast, Span, Opened;
    var d := ForecastSlot(t, Some(a), n, i, j, free, true);
    MovesSlot(t, Some(a), n, base, i, j, free, true);
    ChildBased(base, n, i);
    ChildStep(base, n, i);
    CongruentDown(j, n);
    assert Covers(Child(base, n, i), n - 1, j.v);
    if SlotAt(t, Some(a), i).Table? {
      var c := SlotAt(t, Some(a), i).addr;
      ThroughMeansOpen(t, c, n - 1, Child(base, n, i), j, free);
      Moves(t, Some(c), n - 1, Child(base, n, i), j, free, true);
      if d.end.Through? { SlotOpened(t, a, n, base, i, c, j, d.rest); }
    }
  }

  // ---------------------------------------------------------------- a mapping with enough frames

  /** The tables that a mapping makes, and the rest of the job. */
  datatype Toll = Toll(need: nat, rest: Job)

  function MissingTables(t: Tables, a: Option<nat>, n: nat, j: Job): Toll
    decreases n, 2
  {
    if n == 0 then
      var k := if j.size <= ENTRIES - Index(j.v, 0) then j.size else ENTRIES - Index(j.v, 0);
      Toll(0, Advance(j, k))
    else MissingFrom(t, a, n, Index(j.v, n), j)
  }

  function MissingFrom(t: Tables, a: Option<nat>, n: nat, i: nat, j: Job): Toll
    requires n > 0 && i <= ENTRIES
    decreases n, 1, ENTRIES - i
  {
    if j.size == 0 || i == ENTRIES then Toll(0, j)
    else
      var run := Blocks(j, n, i);
      if run.0.size == 0 || run.1 == ENTRIES then Toll(0, run.0)
      else
        match SlotAt(t, a, run.1)
        case Leaf(_, _) => Toll(0, run.0)
        case Table(c) =>
          var w := MissingTables(t, Some(c), n - 1, run.0);
          var r := MissingFrom(t, a, n, run.1 + 1, w.rest);
          Toll(w.need + r.need, r.rest)
        case Invalid =>
          var b := NewBill(n - 1, run.0);
          var r := MissingFrom(t, a, n, run.1 + 1, b.rest);
          Toll(1 + b.need + r.need, r.rest)
  }

  /** A slot on the path of `vp` holds a table although `lo..hi` covers it wholly and its level may hold a block. */
  ghost predicate Cut(t: Tables, a: nat, n: nat, base: nat, vp: nat, lo: nat, hi: nat)
    decreases n
  {
    && a in t && |t[a]| == ENTRIES && n > 0 && t[a][Index(vp, n)].Table?
    && ( || (n <= BLOCK_LEVEL && lo <= Child(base, n, Index(vp, n)) && Child(base, n, Index(vp, n) + 1) <= hi)
         || Cut(t, t[a][Index(vp, n)].addr, n - 1, Child(base, n, Index(vp, n)), vp, lo, hi))
  }

  /** No slot that the job covers wholly holds a table. */
  ghost predicate Spared(t: Tables, a: nat, base: nat, n: nat, j: Job) {
    forall vp: nat :: Covers(base, n, vp) && j.v <= vp < j.v + j.size ==> !Cut(t, a, n, base, vp, j.v, j.v + j.size)
  }

  /** From the boundary of a slot on, any two starts at or before it count alike. */
  lemma {:induction false} CutFrom(t: Tables, a: nat, n: nat, base: nat, vp: nat, lo: nat, lo': nat, hi: nat, k: nat)
    requires Based(base, n) && Covers(base, n, vp) && Child(base, n, k) <= vp && lo <= Child(base, n, k) &&
      lo' <= Child(base, n, k)
    ensures Cut(t, a, n, base, vp, lo, hi) == Cut(t, a, n, base, vp, lo', hi)
    decreases n
  {
    hide Index, Child, Based, Covers, Span;
    SlotOfPage(base, n, vp);
    var i := Index(vp, n);
    SlotFrom(base, n, vp, k);
    ChildMono(base, n, k, i);
    if n > 0 && a in t && |t[a]| == ENTRIES && t[a][i].Table? {
      ChildBased(base, n, i);
      SlotCovers(base, n, vp);
      ChildStep(Child(base, n, i), n - 1, 0);
      CutFrom(t, t[a][i].addr, n - 1, Child(base, n, i), vp, lo, lo', hi, 0);
    }
  }

  lemma SparedLater(t: Tables, a: nat, base: nat, n: nat, j: Job, rest: Job, k: nat)
    requires Based(base, n) && Spared(t, a, base, n, j) && Moved(j, rest) &&
      (rest.v == Child(base, n, k) || rest == j || rest.size == 0)
    ensures Spared(t, a, base, n, rest)
  {
    hide Cut, Covers, Based, Child;
    forall vp: nat | Covers(base, n, vp) && rest.v <= vp < rest.v + rest.size
      ensures !Cut(t, a, n, base, vp, rest.v, rest.v + rest.size) {
      if rest.v == Child(base, n, k) { CutFrom(t, a, n, base, vp, rest.v, j.v, j.v + j.size, k); }
    }
  }

  lemma SparedBelow(t: Tables, a: nat, n: nat, base: nat, i: nat, c: nat, j: Job)
    requires n > 0 && Based(base, n) && i < ENTRIES && a in t && |t[a]| == ENTRIES && t[a][i] == Table(c) &&
      Spared(t, a, base, n, j)
    ensures Spared(t, c, Child(base, n, i), n - 1, j)
  {
    hide Index, Child, Based, Span;
    var m := n - 1;
    forall vp: nat | Covers(Child(base, n, i), m, vp) && j.v <= vp < j.v + j.size
      ensures !Cut(t, c, m, Child(base, n, i), vp, j.v, j.v + j.size)
    {
      ChildCovers(base, n, i, vp);
      SlotUnique(base, n, vp, i);
      assert !Cut(t, a, n, base, vp, j.v, j.v + j.size);
    }
  }

  /** The block descriptors replace no table descriptor. */
  lemma NoTableAmong(t: Tables, a: nat, n: nat, base: nat, i: nat, k: nat, j: Job, rest: Job)
    requires 0 < n <= BLOCK_LEVEL && Based(base, n) && i <= k <= ENTRIES && Moved(j, rest) && Spared(t, a, base, n, j)
    requires a in t && |t[a]| == ENTRIES && j.v == Child(base, n, i) && rest.v == Child(base, n, k)
    ensures !TableAmong(t, Some(a), i, k)
  {
    hide Index, Child, Based, Span;
    forall x: nat | i <= x < k ensures !SlotAt(t, Some(a), x).Table? {
      ChildMono(base, n, i, x);
      ChildMono(base, n, x + 1, k);
      ChildStep(base, n, x);
      SlotUnique(base, n, Child(base, n, x), x);
      assert !Cut(t, a, n, base, Child(base, n, x), j.v, j.v + j.size);
    }
  }

  /** The forecast `d` of a mapping that can pay its toll. */
  ghost predicate Paid(d: Trip, w: Toll, free: nat) {
    !d.end.RanOut? && !d.loses && (d.end.Through? ==> d.rest == w.rest && d.free == free - w.need)
  }

  /** With more free frames than missing tables a mapping does not run out of them, and if no slot that it covers wholly
      holds a table it loses none. */
  lemma {:induction false} EnoughFrames(t: Tables, a: nat, n: nat, base: nat, j: Job, free: nat)
    requires Whole(t) && a in t && Based(base, n) && Covers(base, n, j.v) && Congruent(j, n) && Spared(t, a, base, n, j)
    requires var w := MissingTables(t, Some(a), n, j); w.need == 0 || free > w.need
    ensures Paid(Forecast(t, Some(a), n, j, free, false), MissingTables(t, Some(a), n, j), free)
    decreases n, 3
  {
    hide Index, Span, Child, Based, Congruent, Spared;
    if n > 0 {
      SlotOfPage(base, n, j.v);
      ChildStep(base, n, 0);
      EnoughFrom(t, a, n, base, Index(j.v, n), j, free);
    }
  }

  /** Table descriptors lead to tables of 512 slots. */
  ghost predicate Whole(t: Tables) {
    forall a :: a in t ==> |t[a]| == ENTRIES && forall i :: 0 <= i < ENTRIES && t[a][i].Table? ==> t[a][i].addr in t
  }

  lemma {:induction false} EnoughFrom(t: Tables, a: nat, n: nat, base: nat, i: nat, j: Job, free: nat)
    requires n > 0 && i <= ENTRIES && Whole(t) && a in t && Based(base, n) && Congruent(j, n) && InSlot(base, n, j, i)
    requires j.v <= Child(base, n, ENTRIES) && Spared(t, a, base, n, j)
    requires var w := MissingFrom(t, Some(a), n, i, j); w.need == 0 || free > w.need
    ensures Paid(ForecastRounds(t, Some(a), n, i, j, free, false), MissingFrom(t, Some(a), n, i, j), free)
    decreases n, 2, ENTRIES - i
  {
    hide Index, Span, Child, Based, Congruent, Forecast, Blocks, TableAmong, Spared, MissingTables, NewBill;
    if j.size > 0 && i < ENTRIES {
      var d := ForecastRound(t, Some(a), n, i, j, free, false);
      RunAt(j, n, base, i);
      var run := Blocks(j, n, i);
      ChildMono(base, n, run.1, ENTRIES);
      ChildMono(base, n, if run.1 < ENTRIES then run.1 + 1 else ENTRIES, ENTRIES);
      if run.1 > i { NoTableAmong(t, a, n, base, i, run.1, j, run.0); } else { NothingAmong(t, a, i); }
      if run.0.size > 0 && run.1 < ENTRIES {
        SparedLater(t, a, base, n, j, run.0, run.1);
        EnoughSlot(t, a, n, base, run.1, run.0, free);
        if d.end.Through? {
          MovesSlot(t, Some(a), n, base, run.1, run.0, free, false);
          CongruentLater(j, d.rest, n);
          SparedLater(t, a, base, n, run.0, d.rest, run.1 + 1);
          EnoughFrom(t, a, n, base, run.1 + 1, d.rest, d.free);
        }
      }
    }
  }

  lemma NothingAmong(t: Tables, a: nat, i: nat)
    ensures !TableAmong(t, Some(a), i, i)
  {
  }

  /** The toll of the table below slot `i`. */
  function SlotToll(t: Tables, a: nat, n: nat, i: nat, j: Job): Toll
    requires n > 0
  {
    match SlotAt(t, Some(a), i)
    case Leaf(_, _) => Toll(0, j)
    case Table(c) => MissingTables(t, Some(c), n - 1, j)
    case Invalid => var b := NewBill(n - 1, j); Toll(1 + b.need, b.rest)
  }

  lemma {:induction false} EnoughSlot(t: Tables, a: nat, n: nat, base: nat, i: nat, j: Job, free: nat)
    requires n > 0 && i < ENTRIES && Whole(t) && a in t && Based(base, n) && Congruent(j, n) && j.size > 0
    requires InSlot(base, n, j, i) && Spared(t, a, base, n, j)
    requires var w := SlotToll(t, a, n, i, j); w.need == 0 || free > w.need
    ensures Paid(ForecastSlot(t, Some(a), n, i, j, free, false), SlotToll(t, a, n, i, j), free)
    decreases n, 0
  {
    hide Index, Child, Based, Congruent, Forecast, Span, Spared, MissingTables, NewBill;
    ChildBased(base, n, i);
    ChildStep(base, n, i);
    CongruentDown(j, n);
    assert Covers(Child(base, n, i), n - 1, j.v);
    match SlotAt(t, Some(a), i)
    case Table(c) =>
      SparedBelow(t, a, n, base, i, c, j);
      EnoughFrames(t, c, n - 1, Child(base, n, i), j, free);
    case Leaf(_, _) =>
    case Invalid => NewPays(n - 1, j, free - 1);
  }
}
