/** The order of the timer list on the circle of the tick counter (add_timer in src/kernel/timer_manager.rs): when a new
    timer is put where its time comes, wrap-around included. */
module TimerOrder {
  import opened Collections
  import opened Timers

  lemma AheadIs(from: nat, to: nat)
    requires from < TICKS && to < TICKS
    ensures Ahead(from, to) == if from <= to then to - from else to + TICKS - from
  {
  }

  /** The timeouts come one after the other once the counter goes on from `last`, and none is `last` itself. */
  ghost predicate InOrder(list: seq<Timer>, last: nat) {
    && (forall i :: 0 <= i < |list| ==> list[i].timeout < TICKS && list[i].timeout != last)
    && (forall i, j :: 0 <= i < j < |list| ==> Ahead(last, list[i].timeout) <= Ahead(last, list[j].timeout))
  }

  /** Some entry has a timeout in `lo..hi`. */
  ghost predicate AnyIn(list: seq<Timer>, lo: int, hi: int) {
    exists i :: 0 <= i < |list| && lo <= list[i].timeout <= hi
  }

  /** What the comparisons of add_timer get right. A timeout beyond the wrap-around needs that no entry is due already;
      one that is not needs, if the counter has wrapped since the last processed tick, that no entry is left from
      before, and else that no entry waits for the next round, unless a later one of this round comes first. */
  ghost predicate Comparable(list: seq<Timer>, last: nat, current: nat, timeout: nat, wrapped: bool) {
    if wrapped then !AnyIn(list, last + 1, current)
    else if last <= current then AnyIn(list, timeout + 1, TICKS - 1) || !AnyIn(list, 0, last - 1)
    else !AnyIn(list, last + 1, TICKS - 1)
  }

  /** The place that the loop chooses. */
  lemma {:induction false} PlaceOf(list: seq<Timer>, t: Timer, current: nat, wrapped: bool) returns (i: nat)
    ensures i <= |list| && InsertFor(list, t, current, wrapped) == Inserted(list, i, t)
    ensures forall j :: 0 <= j < i ==> !GoesBefore(list[j], t, current, wrapped)
    ensures i < |list| ==> GoesBefore(list[i], t, current, wrapped)
  {
    if list == [] || GoesBefore(list[0], t, current, wrapped) {
      i := 0;
      assert list[..0] + [t] + list[0..] == [t] + list;
    } else {
      var k := PlaceOf(list[1..], t, current, wrapped);
      i := k + 1;
      assert list[..i] + [t] + list[i..] == [list[0]] + (list[1..][..k] + [t] + list[1..][k..]);
    }
  }

  /** The list stays in order exactly if nothing before the place comes later and nothing behind it comes earlier. */
  lemma InsertedInOrder(list: seq<Timer>, t: Timer, i: nat, last: nat)
    requires InOrder(list, last) && i <= |list| && t.timeout < TICKS && t.timeout != last
    ensures InOrder(Inserted(list, i, t), last) <==>
      && (forall j :: 0 <= j < i ==> Ahead(last, list[j].timeout) <= Ahead(last, t.timeout))
      && (forall j :: i <= j < |list| ==> Ahead(last, t.timeout) <= Ahead(last, list[j].timeout))
  {
    hide Ahead;
    var r := Inserted(list, i, t);
    assert r[i] == t && forall j :: 0 <= j < |list| ==> list[j] == r[if j < i then j else j + 1];
    if InOrder(r, last) {
      forall j | 0 <= j < i ensures Ahead(last, list[j].timeout) <= Ahead(last, t.timeout) { assert r[j] == list[j]; }
      forall j | i <= j < |list| ensures Ahead(last, t.timeout) <= Ahead(last, list[j].timeout) {
        assert r[j + 1] == list[j];
      }
    }
  }

  /** add_timer keeps the list in the order in which the times come, if and only if its comparisons are right for it. */
  lemma AddInOrderIff(list: seq<Timer>, id: nat, last: nat, current: nat, ms: nat)
    requires InOrder(list, last) && last < TICKS && current < TICKS
    requires 0 < Ahead(last, current) + ms / TIMER_INTERVAL_MS < TICKS
    ensures var (timeout, wrapped) := CalculateTimeout(current, ms);
      InOrder(InsertFor(list, Timer(id, timeout), current, wrapped), last) <==>
      Comparable(list, last, current, timeout, wrapped)
  {
    hide InsertFor, Inserted;
    var (timeout, wrapped) := CalculateTimeout(current, ms);
    var t := Timer(id, timeout);
    var i := PlaceOf(list, t, current, wrapped);
    TimeoutFrom(last, current, ms);
    InsertedInOrder(list, t, i, last);
    forall j | 0 <= j < |list| ensures Straight(last, list[j].timeout) { AheadIs(last, list[j].timeout); }
    AheadIs(last, timeout);
    hide Ahead, CalculateTimeout;
    if wrapped {
      WrappedPlace(list, t, i, last, current);
    } else if last <= current {
      PlainPlace(list, t, i, last, current);
    } else {
      AfterWrapPlace(list, t, i, last, current);
    }
  }

  /** The timeout lies ahead of the last processed tick by the ticks gone by and the ticks to wait. */
  lemma TimeoutFrom(last: nat, current: nat, ms: nat)
    requires last < TICKS && current < TICKS && 0 < Ahead(last, current) + ms / TIMER_INTERVAL_MS < TICKS
    ensures var (timeout, wrapped) := CalculateTimeout(current, ms);
      && timeout < TICKS && timeout != last && Ahead(last, timeout) == Ahead(last, current) + ms / TIMER_INTERVAL_MS
      && (wrapped ==> last <= current && timeout < last)
      && (!wrapped && last <= current ==> last < timeout && current <= timeout)
      && (!wrapped && last > current ==> current <= timeout < last)
  {
    hide Ahead;
    var end := current + ms / TIMER_INTERVAL_MS;
    AheadIs(last, current);
    AheadIs(last, end % TICKS);
    assert end < 2 * TICKS && end % TICKS == if end < TICKS then end else end - TICKS;
  }

  /** The entries' distances from `last`, without the circle. */
  ghost predicate Distances(list: seq<Timer>, t: Timer, last: nat) {
    (forall j :: 0 <= j < |list| ==> Straight(last, list[j].timeout)) && Straight(last, t.timeout)
  }

  predicate Straight(last: nat, x: nat) { Ahead(last, x) == if last <= x then x - last else x + TICKS - last }

  /** Nothing before place `i` comes later than `t`, and nothing behind it earlier. */
  ghost predicate Fits(list: seq<Timer>, t: Timer, i: nat, last: nat) {
    && (forall j :: 0 <= j < i && j < |list| ==> Ahead(last, list[j].timeout) <= Ahead(last, t.timeout))
    && (forall j :: i <= j < |list| ==> Ahead(last, t.timeout) <= Ahead(last, list[j].timeout))
  }

  lemma WrappedPlace(list: seq<Timer>, t: Timer, i: nat, last: nat, current: nat)
    requires InOrder(list, last) && Distances(list, t, last) && last <= current < TICKS && t.timeout < last &&
      i <= |list|
    requires forall j :: 0 <= j < i ==> !GoesBefore(list[j], t, current, true)
    requires i < |list| ==> GoesBefore(list[i], t, current, true)
    ensures Fits(list, t, i, last) <==> !AnyIn(list, last + 1, current)
  {
    hide Ahead;
    if AnyIn(list, last + 1, current) {
      var k :| 0 <= k < |list| && last + 1 <= list[k].timeout <= current;
      assert GoesBefore(list[k], t, current, true);
      assert i <= k;
    } else {
      forall j | i <= j < |list| ensures Ahead(last, t.timeout) <= Ahead(last, list[j].timeout) {
        assert Ahead(last, list[i].timeout) <= Ahead(last, list[j].timeout);
        assert list[i].timeout < last;
      }
    }
  }

  lemma PlainPlace(list: seq<Timer>, t: Timer, i: nat, last: nat, current: nat)
    requires InOrder(list, last) && Distances(list, t, last) && last <= current <= t.timeout < TICKS && last < t.timeout
    requires i <= |list| && forall j :: 0 <= j < i ==> !GoesBefore(list[j], t, current, false)
    requires i < |list| ==> GoesBefore(list[i], t, current, false)
    ensures Fits(list, t, i, last) <==> AnyIn(list, t.timeout + 1, TICKS - 1) || !AnyIn(list, 0, last - 1)
  {
    hide Ahead;
    if i < |list| {
      assert AnyIn(list, t.timeout + 1, TICKS - 1);
      forall j | 0 <= j < |list|
        ensures j < i ==> Ahead(last, list[j].timeout) <= Ahead(last, t.timeout)
        ensures i <= j ==> Ahead(last, t.timeout) <= Ahead(last, list[j].timeout)
      {
        assert j < i ==> Ahead(last, list[j].timeout) <= Ahead(last, list[i].timeout);
        assert i < j ==> Ahead(last, list[i].timeout) <= Ahead(last, list[j].timeout);
      }
    } else {
      assert !AnyIn(list, t.timeout + 1, TICKS - 1);
      if AnyIn(list, 0, last - 1) {
        var k :| 0 <= k < |list| && list[k].timeout <= last - 1;
        assert Ahead(last, list[k].timeout) > Ahead(last, t.timeout);
      }
    }
  }

  lemma AfterWrapPlace(list: seq<Timer>, t: Timer, i: nat, last: nat, current: nat)
    requires InOrder(list, last) && Distances(list, t, last) && current <= t.timeout < last < TICKS && i <= |list|
    requires forall j :: 0 <= j < i ==> !GoesBefore(list[j], t, current, false)
    requires i < |list| ==> GoesBefore(list[i], t, current, false)
    ensures Fits(list, t, i, last) <==> !AnyIn(list, last + 1, TICKS - 1)
  {
    hide Ahead;
    if AnyIn(list, last + 1, TICKS - 1) {
      var k :| 0 <= k < |list| && last + 1 <= list[k].timeout;
      assert GoesBefore(list[k], t, current, false);
      assert i <= k;
    } else {
      forall j | i <= j < |list| ensures Ahead(last, t.timeout) <= Ahead(last, list[j].timeout) {
        assert Ahead(last, list[i].timeout) <= Ahead(last, list[j].timeout);
        assert list[i].timeout < last;
      }
    }
  }

  /** Five ticks before the counter wraps a timer is added for the next round, then one for this round: it is put behind
      the other, although its time comes first, and is not handed over when it comes. */
  lemma NextRoundBlocks()
    ensures var now := TICKS - 5; var list := InsertFor([], Timer(0, 5), now, true);
      && CalculateTimeout(now, 100) == (5, true) && CalculateTimeout(now, 20) == (TICKS - 3, false)
      && InsertFor(list, Timer(1, TICKS - 3), now, false) == [Timer(0, 5), Timer(1, TICKS - 3)]
      && Due([Timer(0, 5), Timer(1, TICKS - 3)], now, TICKS - 1) == 0 && IsDue(now, TICKS - 1, TICKS - 3)
  {
    var now := TICKS - 5;
    var list := InsertFor([], Timer(0, 5), now, true);
    assert list == [Timer(0, 5)];
    assert list[1..] == [];
    assert InsertFor(list, Timer(1, TICKS - 3), now, false) == [Timer(0, 5)] + [Timer(1, TICKS - 3)];
  }
}
