/** What a call of `_associate_area` (src/arch/aarch64/paging/mod.rs) comes to, told from the tables and the number of
    free frames before it: how it ends, and whether it leaves tables behind that no walk comes to. */
module AreaForecast {
  import opened Collections
  import opened Radix
  import opened PageTable
  import opened Area
  import opened AreaPaths

  datatype End = Through | NotFound | RanOut

  /** `made`: the call hung a new table into the table that it worked on. `loses`: it left tables that nothing leads
      to. */
  datatype Trip = Trip(end: End, rest: Job, free: nat, made: bool, loses: bool)

  /** A slot of table `a`, or of a new table. */
  function SlotAt(t: Tables, a: Option<nat>, i: nat): Slot {
    if a.Some? && a.value in t && i < |t[a.value]| then t[a.value][i] else Invalid
  }

  /** The cursors and the slot after the block descriptors. */
  function BlockRun(j: Job, n: nat, i: nat): (r: (Job, nat))
    requires i <= ENTRIES
    ensures i <= r.1 <= ENTRIES && (r.1 == i ==> r.0 == j)
    decreases ENTRIES - i
  {
    if j.size > 0 && i < ENTRIES && Span(n) <= j.size then BlockRun(Advance(j, Span(n)), n, i + 1) else (j, i)
  }

  function Blocks(j: Job, n: nat, i: nat): (r: (Job, nat))
    requires i <= ENTRIES
    ensures i <= r.1 <= ENTRIES && (r.1 == i ==> r.0 == j)
  {
    if Blocky(j, n) then BlockRun(j, n, i) else (j, i)
  }

  /** Some slot among `i..k` holds a table, which a block descriptor would cut off. */
  ghost predicate TableAmong(t: Tables, a: Option<nat>, i: nat, k: nat) {
    exists x: nat :: i <= x < k && SlotAt(t, a, x).Table?
  }

  /** The whole call on table `a`. */
  ghost function Forecast(t: Tables, a: Option<nat>, n: nat, j: Job, free: nat, unmap: bool): Trip
    decreases n, 3
  {
    if n == 0 then
      var k := if j.size <= ENTRIES - Index(j.v, 0) then j.size else ENTRIES - Index(j.v, 0);
      Trip(Through, Advance(j, k), free, false, false)
    else ForecastRounds(t, a, n, Index(j.v, n), j, free, unmap)
  }

  /** The rounds of the outer loop from slot `i` on. */
  ghost function ForecastRounds(t: Tables, a: Option<nat>, n: nat, i: nat, j: Job, free: nat, unmap: bool): Trip
    requires n > 0 && i <= ENTRIES
    decreases n, 2, ENTRIES - i
  {
    if j.size == 0 || i == ENTRIES then Trip(Through, j, free, false, false)
    else
      var d := ForecastRound(t, a, n, i, j, free, unmap);
      if d.end.Through? then After(d, ForecastRounds(t, a, n, NextSlot(j, n, i), d.rest, d.free, unmap)) else d
  }

  function After(d: Trip, r: Trip): Trip { r.(made := d.made || r.made, loses := d.loses || r.loses) }

  function NextSlot(j: Job, n: nat, i: nat): (k: nat)
    requires i < ENTRIES && j.size > 0
    ensures i < k <= ENTRIES
  {
    var run := Blocks(j, n, i);
    if run.0.size == 0 || run.1 == ENTRIES then run.1 else run.1 + 1
  }

  /** One round: block descriptors, then the table below the next slot. */
  ghost function ForecastRound(t: Tables, a: Option<nat>, n: nat, i: nat, j: Job, free: nat, unmap: bool): Trip
    requires n > 0 && i < ENTRIES
    decreases n, 1
  {
    var run := Blocks(j, n, i);
    var cut := Trip(Through, run.0, free, false, TableAmong(t, a, i, run.1));
    if run.0.size == 0 || run.1 == ENTRIES then cut else After(cut, ForecastSlot(t, a, n, run.1, run.0, free, unmap))
  }

  /** The table below slot `i`, made if it is missing and given back if it cannot be filled. */
  ghost function ForecastSlot(t: Tables, a: Option<nat>, n: nat, i: nat, j: Job, free: nat, unmap: bool): Trip
    requires n > 0
    decreases n, 0
  {
    match SlotAt(t, a, i)
    case Table(c) => Forecast(t, Some(c), n - 1, j, free, unmap).(made := false)
    case Leaf(_, _) => Trip(NotFound, j, free, false, false)
    case Invalid =>
      if unmap then Trip(NotFound, j, free, false, false)
      else if free <= 1 then Trip(RanOut, j, free, false, false)
      else
        var d := Forecast(map[], None, n - 1, j, free - 1, unmap);
        if d.end.Through? then d.(made := true) else d.(made := false, loses := d.made || d.loses)
  }

  // ---------------------------------------------------------------- tables that are not touched do not matter

  /** The paths of the pages from slot `i` on are the same. */
  ghost predicate SameFrom(t: Tables, u: Tables, a: nat, base: nat, n: nat, i: nat) {
    forall vp: nat :: Covers(base, n, vp) && Child(base, n, i) <= vp ==> SamePath(t, u, a, n, vp)
  }

  lemma SameSlot(t: Tables, u: Tables, a: nat, base: nat, n: nat, i: nat, x: nat)
    requires Based(base, n) && SameFrom(t, u, a, base, n, i) && i <= x < ENTRIES
    ensures SlotAt(u, Some(a), x) == SlotAt(t, Some(a), x)
  {
    hide Index, Based, Child, Span, Covers;
    ChildMono(base, n, i, x);
    ChildStep(base, n, x);
    SlotUnique(base, n, Child(base, n, x), x);
    assert SamePath(t, u, a, n, Child(base, n, x));
  }

  /** The table below slot `i`, if there is one. */
  lemma SameBelow(t: Tables, u: Tables, a: nat, base: nat, n: nat, i: nat, x: nat)
    requires n > 0 && Based(base, n) && SameFrom(t, u, a, base, n, i) && i <= x < ENTRIES &&
      SlotAt(t, Some(a), x).Table?
    ensures SameFrom(t, u, SlotAt(t, Some(a), x).addr, Child(base, n, x), n - 1, 0)
  {
    hide Index, Based, Child, Span;
    var c, m := SlotAt(t, Some(a), x).addr, n - 1;
    ChildMono(base, n, i, x);
    ChildStep(base, n, x);
    forall vp: nat | Covers(Child(base, n, x), m, vp) ensures SamePath(t, u, c, m, vp) {
      SlotUnique(base, n, vp, x);
      assert SamePath(t, u, a, n, vp);
    }
  }

  lemma {:induction false} SameForecast(t: Tables, u: Tables, a: nat, base: nat, n: nat, j: Job, free: nat, unmap: bool)
    requires Based(base, n) && SameFrom(t, u, a, base, n, 0)
    ensures Forecast(u, Some(a), n, j, free, unmap) == Forecast(t, Some(a), n, j, free, unmap)
    decreases n, 3
  {
    hide Index, Based, Child, Span, Covers, SamePath;
    if n > 0 {
      SameLater(t, u, a, base, n, 0, Index(j.v, n));
      SameRounds(t, u, a, base, n, Index(j.v, n), j, free, unmap);
    }
  }

  lemma SameLater(t: Tables, u: Tables, a: nat, base: nat, n: nat, i: nat, k: nat)
    requires SameFrom(t, u, a, base, n, i) && i <= k
    ensures SameFrom(t, u, a, base, n, k)
  {
    hide Child, Covers, SamePath;
    ChildMono(base, n, i, k);
  }

  lemma {:induction false} SameRounds(t: Tables, u: Tables, a: nat, base: nat, n: nat, i: nat, j: Job, free: nat,
                                      unmap: bool)
    requires n > 0 && i <= ENTRIES && Based(base, n) && SameFrom(t, u, a, base, n, i)
    ensures ForecastRounds(u, Some(a), n, i, j, free, unmap) == ForecastRounds(t, Some(a), n, i, j, free, unmap)
    decreases n, 2, ENTRIES - i
  {
    hide Based, SameFrom, ForecastRound, NextSlot;
    if j.size > 0 && i < ENTRIES {
      SameRound(t, u, a, base, n, i, j, free, unmap);
      var d, k := ForecastRound(t, Some(a), n, i, j, free, unmap), NextSlot(j, n, i);
      SameLater(t, u, a, base, n, i, k);
      if d.end.Through? { SameRounds(t, u, a, base, n, k, d.rest, d.free, unmap); }
    }
  }

  lemma {:induction false} SameRound(t: Tables, u: Tables, a: nat, base: nat, n: nat, i: nat, j: Job, free: nat,
                                     unmap: bool)
    requires n > 0 && i < ENTRIES && Based(base, n) && SameFrom(t, u, a, base, n, i)
    ensures ForecastRound(u, Some(a), n, i, j, free, unmap) == ForecastRound(t, Some(a), n, i, j, free, unmap)
    decreases n, 1
  {
    hide Based, SameFrom, ForecastSlot, Blocks, SlotAt;
    var run := Blocks(j, n, i);
    forall x: nat | i <= x < run.1 ensures SlotAt(u, Some(a), x) == SlotAt(t, Some(a), x) {
      SameSlot(t, u, a, base, n, i, x);
    }
    assert TableAmong(u, Some(a), i, run.1) == TableAmong(t, Some(a), i, run.1);
    if run.0.size != 0 && run.1 != ENTRIES {
      SameLater(t, u, a, base, n, i, run.1);
      SameForecastSlot(t, u, a, base, n, run.1, run.0, free, unmap);
    }
  }

  lemma {:induction false} SameForecastSlot(t: Tables, u: Tables, a: nat, base: nat, n: nat, i: nat, j: Job, free: nat,
                                            unmap: bool)
    requires n > 0 && i < ENTRIES && Based(base, n) && SameFrom(t, u, a, base, n, i)
    ensures ForecastSlot(u, Some(a), n, i, j, free, unmap) == ForecastSlot(t, Some(a), n, i, j, free, unmap)
    decreases n, 0
  {
    hide Based, SameFrom, SlotAt, Forecast;
    SameSlot(t, u, a, base, n, i, i);
    if SlotAt(t, Some(a), i).Table? {
      ChildBased(base, n, i);
      SameBelow(t, u, a, base, n, i, i);
      SameForecast(t, u, SlotAt(t, Some(a), i).addr, Child(base, n, i), n - 1, j, free, unmap);
    }
  }

  // ---------------------------------------------------------------- how many frames a new table takes

  /** For a new table and a job: the tables that are made below it, those up to the first one that is finished, and the
      rest of the job. */
  datatype Bill = Bill(need: nat, chain: nat, rest: Job)

  function NewBill(n: nat, j: Job): (b: Bill)
    ensures b.chain <= b.need
    decreases n, 2
  {
    if n == 0 then
      var k := if j.size <= ENTRIES - Index(j.v, 0) then j.size else ENTRIES - Index(j.v, 0);
      Bill(0, 0, Advance(j, k))
    else BillFrom(n, Index(j.v, n), j)
  }

  function BillFrom(n: nat, i: nat, j: Job): (b: Bill)
    requires n > 0 && i <= ENTRIES
    ensures b.chain <= b.need
    decreases n, 1, ENTRIES - i
  {
    if j.size == 0 || i == ENTRIES then Bill(0, 0, j)
    else
      var run := Blocks(j, n, i);
      if run.0.size == 0 || run.1 == ENTRIES then Bill(0, 0, run.0)
      else
        var c := NewBill(n - 1, run.0);
        var r := BillFrom(n, run.1 + 1, c.rest);
        Bill(1 + c.need + r.need, 1 + c.chain, r.rest)
  }

  /** The forecast `d` with `free` frames follows the bill: enough frames are more than the need, since the last one is
      never handed out; if they run out, tables are left behind exactly if the first chain of tables was finished. */
  ghost predicate Pays(d: Trip, b: Bill, free: nat) {
    if b.need == 0 || free > b.need then d == Trip(Through, b.rest, free - b.need, b.need > 0, false)
    else d.end.RanOut? && (d.made || d.loses <==> free > b.chain)
  }

  lemma {:induction false} NewPays(n: nat, j: Job, free: nat)
    ensures Pays(Forecast(map[], None, n, j, free, false), NewBill(n, j), free)
    decreases n, 2
  {
    hide Index, Span;
    if n > 0 { PaysFrom(n, Index(j.v, n), j, free); }
  }

  lemma {:induction false} PaysFrom(n: nat, i: nat, j: Job, free: nat)
    requires n > 0 && i <= ENTRIES
    ensures Pays(ForecastRounds(map[], None, n, i, j, free, false), BillFrom(n, i, j), free)
    decreases n, 1, ENTRIES - i
  {
    hide Blocks, Forecast, NewBill;
    if j.size > 0 && i < ENTRIES {
      var run := Blocks(j, n, i);
      assert !TableAmong(map[], None, i, run.1);
      if run.0.size > 0 && run.1 < ENTRIES {
        var c := NewBill(n - 1, run.0);
        var d := ForecastSlot(map[], None, n, run.1, run.0, free, false);
        assert ForecastRound(map[], None, n, i, j, free, false) == d;
        if free > 1 {
          NewPays(n - 1, run.0, free - 1);
          if c.need == 0 || free - 1 > c.need {
            assert d == Trip(Through, c.rest, free - 1 - c.need, true, false);
            PaysFrom(n, run.1 + 1, c.rest, free - 1 - c.need);
            assert ForecastRounds(map[], None, n, i, j, free, false) == After(d,
              ForecastRounds(map[], None, n, run.1 + 1, c.rest, free - 1 - c.need, false));
          }
        }
      }
    }
  }

  /** Below an empty slot: the call runs out of frames exactly if there are not more than the tables it needs, and
      leaves tables behind exactly if the frames last for the first chain of tables but not for all. */
  lemma EmptySlotPays(t: Tables, a: Option<nat>, n: nat, i: nat, j: Job, free: nat)
    requires n > 0 && SlotAt(t, a, i).Invalid?
    ensures var d, b := ForecastSlot(t, a, n, i, j, free, false), NewBill(n - 1, j);
      && (d.end.RanOut? <==> free <= 1 + b.need)
      && (d.end.Through? <==> free > 1 + b.need)
      && (d.loses <==> 1 + b.chain < free <= 1 + b.need)
  {
    hide Forecast, NewBill;
    if free > 1 { NewPays(n - 1, j, free - 1); }
  }

  // ---------------------------------------------------------------- a new table is like none

  lemma {:induction false} FreshForecast(t: Tables, c: nat, n: nat, j: Job, free: nat, unmap: bool)
    requires c in t && forall x :: 0 <= x < |t[c]| ==> t[c][x].Invalid?
    ensures Forecast(t, Some(c), n, j, free, unmap) == Forecast(map[], None, n, j, free, unmap)
  {
    hide Index, Span;
    if n > 0 { FreshRounds(t, c, n, Index(j.v, n), j, free, unmap); }
  }

  lemma {:induction false} FreshRounds(t: Tables, c: nat, n: nat, i: nat, j: Job, free: nat, unmap: bool)
    requires n > 0 && i <= ENTRIES && c in t && forall x :: 0 <= x < |t[c]| ==> t[c][x].Invalid?
    ensures ForecastRounds(t, Some(c), n, i, j, free, unmap) == ForecastRounds(map[], None, n, i, j, free, unmap)
    decreases ENTRIES - i
  {
    hide NextSlot, Blocks, Forecast;
    if j.size > 0 && i < ENTRIES {
      var run := Blocks(j, n, i);
      forall x: nat ensures SlotAt(t, Some(c), x) == SlotAt(map[], None, x) == Invalid { }
      assert TableAmong(t, Some(c), i, run.1) == TableAmong(map[], None, i, run.1);
      var d, k := ForecastRound(t, Some(c), n, i, j, free, unmap), NextSlot(j, n, i);
      assert ForecastSlot(t, Some(c), n, run.1, run.0, free, unmap) == ForecastSlot(map[], None, n, run.1, run.0, free,
        unmap);
      assert d == ForecastRound(map[], None, n, i, j, free, unmap);
      if d.end.Through? { FreshRounds(t, c, n, k, d.rest, d.free, unmap); }
    }
  }
}
