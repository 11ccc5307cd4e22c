/** The timer queue of src/kernel/timer_manager.rs. */
module Timers {
  import opened Collections

  const TIMER_INTERVAL_MS: nat := 10
  const TICKS: nat := 0x1_0000_0000_0000_0000

  /** A TimerList entry; `id` numbers the calls of add_timer. */
  datatype Timer = Timer(id: nat, timeout: nat)

  datatype Flag = Waiting | Expired | RunningNow | Finished | Canceled

  /** calculate_timeout: 64-bit addition that reports the wrap-around. */
  function CalculateTimeout(current: nat, ms: nat): (nat, bool) {
    var end := current + ms / TIMER_INTERVAL_MS;
    (end % TICKS, end >= TICKS)
  }

  /** How many ticks after `from` the tick `to` comes, on the circle of the counter. */
  function Ahead(from: nat, to: nat): nat { (to + TICKS - from % TICKS) % TICKS }

  /** The timeout lies ahead of the current tick by the whole ticks of the wait, and less than one tick is cut off; it
      wrapped around exactly if it is the smaller number. */
  lemma TimeoutAhead(current: nat, ms: nat)
    requires current < TICKS && ms / TIMER_INTERVAL_MS < TICKS
    ensures var (timeout, wrapped) := CalculateTimeout(current, ms);
      && timeout < TICKS && (wrapped <==> timeout < current)
      && Ahead(current, timeout) * TIMER_INTERVAL_MS <= ms < (Ahead(current, timeout) + 1) * TIMER_INTERVAL_MS
  {
  }

  // ---------------------------------------------------------------- add_timer

  /** The entry goes before the first one that times out later. */
  function Insert(list: seq<Timer>, t: Timer): seq<Timer> {
    if list == [] then [t]
    else if list[0].timeout > t.timeout then [t] + list
    else [list[0]] + Insert(list[1..], t)
  }

  /** The test of add_timer: the new timer goes before this entry. */
  predicate GoesBefore(e: Timer, t: Timer, current: nat, wrapped: bool) {
    e.timeout > t.timeout && if wrapped then e.timeout <= current else e.timeout >= current
  }

  /** The loop of add_timer: a wrapped timeout goes before the first entry of the next round that times out later. */
  function InsertFor(list: seq<Timer>, t: Timer, current: nat, wrapped: bool): seq<Timer> {
    if list == [] then [t]
    else if GoesBefore(list[0], t, current, wrapped) then [t] + list
    else [list[0]] + InsertFor(list[1..], t, current, wrapped)
  }

  lemma {:induction false} InsertForSkip(list: seq<Timer>, t: Timer, current: nat, wrapped: bool, i: nat)
    requires i <= |list| && forall j :: 0 <= j < i ==> !GoesBefore(list[j], t, current, wrapped)
    ensures InsertFor(list, t, current, wrapped) == list[..i] + InsertFor(list[i..], t, current, wrapped)
  {
    if i > 0 {
      InsertForSkip(list[1..], t, current, wrapped, i - 1);
      assert list[1..][i - 1..] == list[i..];
      var rest := InsertFor(list[i..], t, current, wrapped);
      assert [list[0]] + (list[1..][..i - 1] + rest) == list[..i] + rest;
    } else {
      assert list[0..] == list;
      var r := InsertFor(list, t, current, wrapped);
      assert list[..0] + r == r;
    }
  }

  lemma InsertForHere(list: seq<Timer>, t: Timer, current: nat, wrapped: bool, i: nat)
    requires i <= |list| && (forall j :: 0 <= j < i ==> !GoesBefore(list[j], t, current, wrapped))
    requires i < |list| ==> GoesBefore(list[i], t, current, wrapped)
    ensures InsertFor(list, t, current, wrapped) == list[..i] + [t] + list[i..]
  {
    InsertForSkip(list, t, current, wrapped, i);
    assert list[..i] + [t] + list[i..] == list[..i] + ([t] + list[i..]);
  }

  /** Without wrap-around the comparison with the current tick never matters. */
  lemma {:induction false} InsertForIsInsert(list: seq<Timer>, t: Timer, current: nat)
    requires t.timeout >= current
    ensures InsertFor(list, t, current, false) == Insert(list, t)
  {
    if list != [] && list[0].timeout <= t.timeout { InsertForIsInsert(list[1..], t, current); }
  }

  /** The place that Insert chooses. */
  lemma {:induction false} InsertPlace(list: seq<Timer>, t: Timer) returns (i: nat)
    ensures i <= |list| && Insert(list, t) == list[..i] + [t] + list[i..]
    ensures forall j :: 0 <= j < i ==> list[j].timeout <= t.timeout
    ensures i < |list| ==> list[i].timeout > t.timeout
  {
    if list == [] || list[0].timeout > t.timeout {
      i := 0;
      assert list[..0] + [t] + list[0..] == [t] + list;
    } else {
      var k := InsertPlace(list[1..], t);
      i := k + 1;
      assert list[..i] + [t] + list[i..] == [list[0]] + (list[1..][..k] + [t] + list[1..][k..]);
    }
  }

  // ---------------------------------------------------------------- local_timer_handler

  /** The test of the handler; a tick below the last processed one counts as a wrap-around. */
  predicate IsDue(last: nat, now: nat, timeout: nat) {
    if now >= last then last < timeout <= now else last < timeout || timeout <= now
  }

  /** A timeout is due exactly if the counter has come to it since the last processed tick, wrap-around or not. */
  lemma DueOnCircle(last: nat, now: nat, timeout: nat)
    requires last < TICKS && now < TICKS && timeout < TICKS
    ensures IsDue(last, now, timeout) <==> 0 < Ahead(last, timeout) <= Ahead(last, now)
  {
  }

  /** How many entries from the head on are due. */
  function Due(list: seq<Timer>, last: nat, now: nat): (k: nat)
    ensures k <= |list|
  {
    if list == [] || !IsDue(last, now, list[0].timeout) then 0 else 1 + Due(list[1..], last, now)
  }

  lemma {:induction false} DueFacts(list: seq<Timer>, last: nat, now: nat)
    ensures forall j :: 0 <= j < Due(list, last, now) ==> IsDue(last, now, list[j].timeout)
    ensures Due(list, last, now) < |list| ==> !IsDue(last, now, list[Due(list, last, now)].timeout)
  {
    if list != [] && IsDue(last, now, list[0].timeout) { DueFacts(list[1..], last, now); }
  }

  /** The timer list, the flags of its entries, the entries handed to the work queue in order, and the last processed
      tick. */
  datatype Queue = Queue(list: seq<Timer>, flags: map<nat, Flag>, work: seq<nat>, last: nat)

  /** A handler call at tick `now`, while the work queue takes `room` more entries. An entry whose flag is not Waiting
      is dropped; an entry that the work queue refuses keeps its place, but its flag is set. */
  function Handled(q: Queue, now: nat, room: nat): Queue
    decreases |q.list|
  {
    if q.list == [] then q
    else
      var t := q.list[0];
      if !IsDue(q.last, now, t.timeout) then q.(last := now)
      else if t.id !in q.flags || q.flags[t.id] != Waiting then Handled(q.(list := q.list[1..]), now, room)
      else if room == 0 then q.(flags := q.flags[t.id := Expired])
      else Handled(Queue(q.list[1..], q.flags[t.id := Expired], q.work + [t.id], q.last), now, room - 1)
  }

  /** Every entry waits, and no two are the same. */
  ghost predicate Waits(q: Queue) {
    && (forall i :: 0 <= i < |q.list| ==> q.list[i].id in q.flags && q.flags[q.list[i].id] == Waiting)
    && (forall i, j :: 0 <= i < j < |q.list| ==> q.list[i].id != q.list[j].id)
  }

  /** Every entry that was handed over was Waiting and is Expired now, which is what the worker looks for. No other flag
      changed, except that of the entry at the head if the work queue is full and refused it. */
  ghost predicate Flagged(q: Queue, q': Queue, room: nat) {
    && q'.flags.Keys == q.flags.Keys && q.work <= q'.work && |q'.work| <= |q.work| + room
    && (forall i :: |q.work| <= i < |q'.work| ==>
          q'.work[i] in q.flags && q.flags[q'.work[i]] == Waiting && q'.flags[q'.work[i]] == Expired)
    && (forall id :: id in q.flags && q'.flags[id] != q.flags[id] ==>
          || id in q'.work[|q.work|..]
          || (q'.list != [] && q'.list[0].id == id && |q'.work| == |q.work| + room && q'.flags[id] == Expired))
  }

  lemma {:induction false} HandledFlags(q: Queue, now: nat, room: nat)
    ensures Flagged(q, Handled(q, now, room), room)
    decreases |q.list|
  {
    hide IsDue;
    if q.list != [] && IsDue(q.last, now, q.list[0].timeout) {
      var t := q.list[0];
      if t.id !in q.flags || q.flags[t.id] != Waiting {
        HandledFlags(q.(list := q.list[1..]), now, room);
      } else if room > 0 {
        var u := Queue(q.list[1..], q.flags[t.id := Expired], q.work + [t.id], q.last);
        HandledFlags(u, now, room - 1);
        FlaggedMore(q, u, Handled(u, now, room - 1), t.id, room);
      } else {
        assert q.flags[t.id := Expired].Keys == q.flags.Keys;
      }
    }
  }

  lemma FlaggedMore(q: Queue, u: Queue, q': Queue, id: nat, room: nat)
    requires room > 0 && id in q.flags && q.flags[id] == Waiting && Flagged(u, q', room - 1)
    requires u.flags == q.flags[id := Expired] && u.work == q.work + [id]
    ensures Flagged(q, q', room)
  {
    assert u.flags.Keys == q.flags.Keys && q'.work[|q.work|] == id;
    forall x | x in q'.work[|u.work|..] ensures x in q'.work[|q.work|..] {
      var i :| 0 <= i < |q'.work| - |u.work| && q'.work[|u.work|..][i] == x;
      assert q'.work[|q.work|..][i + 1] == x;
    }
    assert q'.work[|q.work|..][0] == id;
  }

  /** The first `m` entries left the list: all of them due, and those that were Waiting are among the ones handed over.
      The next one, if any, is not due, and then the tick is remembered, or it was refused for lack of room. */
  ghost predicate Passed(q: Queue, q': Queue, now: nat, room: nat, m: nat) {
    && m <= |q.list| && q'.list == q.list[m..] && |q.work| <= |q'.work|
    && (forall j :: 0 <= j < m ==> IsDue(q.last, now, q.list[j].timeout))
    && (forall j :: 0 <= j < m && q.list[j].id in q.flags && q.flags[q.list[j].id] == Waiting ==>
          q.list[j].id in q'.work[|q.work|..])
    && (if m == |q.list| then q'.last == q.last
        else if IsDue(q.last, now, q.list[m].timeout) then q'.last == q.last && |q'.work| == |q.work| + room
        else q'.last == now)
  }

  lemma {:induction false} HandledPasses(q: Queue, now: nat, room: nat) returns (m: nat)
    ensures Passed(q, Handled(q, now, room), now, room, m)
    decreases |q.list|
  {
    hide IsDue;
    m := 0;
    assert q.list[0..] == q.list;
    if q.list != [] && IsDue(q.last, now, q.list[0].timeout) {
      var t := q.list[0];
      if t.id !in q.flags || q.flags[t.id] != Waiting {
        var u := q.(list := q.list[1..]);
        var k := HandledPasses(u, now, room);
        m := k + 1;
        PassedMore(q, u, Handled(u, now, room), now, room, room, k);
      } else if room > 0 {
        var u := Queue(q.list[1..], q.flags[t.id := Expired], q.work + [t.id], q.last);
        var k := HandledPasses(u, now, room - 1);
        m := k + 1;
        HandledFlags(u, now, room - 1);
        PassedMore(q, u, Handled(u, now, room - 1), now, room, room - 1, k);
      }
    }
  }

  lemma PassedMore(q: Queue, u: Queue, q': Queue, now: nat, room: nat, room': nat, k: nat)
    requires q.list != [] && u.list == q.list[1..] && u.last == q.last && IsDue(q.last, now, q.list[0].timeout)
    requires Passed(u, q', now, room', k)
    requires var id := q.list[0].id;
      if id in q.flags && q.flags[id] == Waiting
      then u.work == q.work + [id] && u.work <= q'.work && u.flags == q.flags[id := Expired] && room == room' + 1
      else u.work == q.work && u.flags == q.flags && room == room'
    ensures Passed(q, q', now, room, k + 1)
  {
    hide IsDue;
    assert q.list[1..][k..] == q.list[k + 1..];
    forall j | 0 <= j < k + 1 ensures IsDue(q.last, now, q.list[j].timeout) {
      if j > 0 { assert u.list[j - 1] == q.list[j]; }
    }
    var n, n' := |q.work|, |u.work|;
    forall x | x in q'.work[n'..] ensures x in q'.work[n..] {
      var i :| 0 <= i < |q'.work| - n' && q'.work[n'..][i] == x;
      assert q'.work[n..][i + (n' - n)] == x;
    }
    forall j | 0 <= j < k + 1 && q.list[j].id in q.flags && q.flags[q.list[j].id] == Waiting
      ensures q.list[j].id in q'.work[n..]
    {
      if n' > n { assert q'.work[n..][0] == q.list[0].id; }
      if j > 0 && q.list[j].id != q.list[0].id { assert u.list[j - 1] == q.list[j]; }
    }
  }

  lemma WaitsInserted(q: Queue, t: Timer, i: nat)
    requires i <= |q.list| && forall j :: 0 <= j < |q.list| ==> q.list[j].id != t.id
    ensures Waits(q) ==> Waits(Queue(q.list[..i] + [t] + q.list[i..], q.flags[t.id := Waiting], q.work, q.last))
  {
    var list := q.list[..i] + [t] + q.list[i..];
    forall j | 0 <= j < |list| ensures list[j] == if j < i then q.list[j] else if j == i then t else q.list[j - 1] { }
  }

  class LocalTimerManager {
    var timerList: seq<Timer>
    var lastProcessedTimeout: nat
    var flags: map<nat, Flag>
    /** The entries handed to the work queue, in order. */
    var work: seq<nat>

    function Now(): Queue
      reads this
    {
      Queue(timerList, flags, work, lastProcessedTimeout)
    }

    ghost predicate AllWaiting()
      reads this
    {
      Waits(Now())
    }

    constructor ()
      ensures Now() == Queue([], map[], [], 0) && AllWaiting()
    {
      timerList, lastProcessedTimeout, flags, work := [], 0, map[], [];
    }

    /** add_timer: the entry comes from the pool, which may be empty. */
    method AddTimer(current: nat, waitMs: nat, entry: Option<nat>) returns (ok: bool)
      requires current < TICKS && (entry.Some? ==> forall i :: 0 <= i < |timerList| ==> timerList[i].id != entry.value)
      modifies this`timerList, this`flags
      ensures ok == entry.Some? && (!ok ==> Now() == old(Now()))
      ensures ok ==> var (timeout, wrapped) := CalculateTimeout(current, waitMs);
        && timerList == InsertFor(old(timerList), Timer(entry.value, timeout), current, wrapped)
        && (!wrapped ==> timerList == Insert(old(timerList), Timer(entry.value, timeout)))
      ensures ok ==> flags == old(flags)[entry.value := Waiting]
      ensures old(AllWaiting()) ==> AllWaiting()
    {
      hide Insert, InsertFor, Waits;
      if entry.None? {
        return false;
      }
      var id := entry.value;
      var (timeout, wrapped) := CalculateTimeout(current, waitMs);
      var t := Timer(id, timeout);
      if !wrapped { InsertForIsInsert(timerList, t, current); }
      flags := flags[id := Waiting];
      var i := 0;
      while i < |timerList|
        invariant i <= |timerList| && timerList == old(timerList)
        invariant forall j :: 0 <= j < i ==> !GoesBefore(timerList[j], t, current, wrapped)
      {
        var e := timerList[i];
        if !wrapped {
          if e.timeout >= current && e.timeout > timeout {
            break;
          }
        } else if e.timeout <= current && e.timeout > timeout {
          break;
        }
        i := i + 1;
      }
      InsertForHere(timerList, t, current, wrapped, i);
      WaitsInserted(old(Now()), t, i);
      timerList := timerList[..i] + [t] + timerList[i..];
      return true;
    }

    /** local_timer_handler, while the work queue takes `room` more entries. */
    method LocalTimerHandler(currentTick: nat, room: nat)
      modifies this`timerList, this`lastProcessedTimeout, this`flags, this`work
      ensures Now() == Handled(old(Now()), currentTick, room) && Flagged(old(Now()), Now(), room)
      ensures exists m: nat :: Passed(old(Now()), Now(), currentTick, room, m)
      ensures old(AllWaiting()) && room >= Due(old(timerList), old(lastProcessedTimeout), currentTick) ==>
        && AllWaiting()
        && var k := Due(old(timerList), old(lastProcessedTimeout), currentTick);
           && timerList == old(timerList)[k..]
           && work == old(work) + Ids(old(timerList)[..k])
           && lastProcessedTimeout == if k == |old(timerList)| then old(lastProcessedTimeout) else currentTick
    {
      hide IsDue, Due, Ids, Waits, Flagged, Passed;
      var left := room;
      ghost var m := HandledPasses(Now(), currentTick, room);
      HandledFlags(Now(), currentTick, room);
      if AllWaiting() && room >= Due(timerList, lastProcessedTimeout, currentTick) {
        HandleAll(Now(), currentTick, room);
      }
      while timerList != []
        invariant Handled(Now(), currentTick, left) == Handled(old(Now()), currentTick, room)
        decreases |timerList|
      {
        var t := timerList[0];
        if !IsDue(lastProcessedTimeout, currentTick, t.timeout) {
          lastProcessedTimeout := currentTick;
          break;
        }
        if t.id !in flags || flags[t.id] != Waiting {
          timerList := timerList[1..];
          continue;
        }
        flags := flags[t.id := Expired];
        if left == 0 {
          break;
        }
        work := work + [t.id];
        left := left - 1;
        timerList := timerList[1..];
      }
    }

    /** expired_timer_list_worker: a handed over entry runs once; the callback is the caller's. */
    method ExpiredTimerListWorker(id: nat) returns (called: bool)
      requires id in flags
      modifies this`flags
      ensures called <==> old(flags[id]) == Expired
      ensures called ==> flags == old(flags)[id := Finished]
      ensures !called ==> flags == old(flags)
    {
      if flags[id] != Expired {
        return false;
      }
      flags := flags[id := RunningNow];
      flags := flags[id := Finished];
      return true;
    }
  }

  // ---------------------------------------------------------------- when every due timer is handed over

  /** With room for all of them the due entries at the head are handed over, in order. */
  lemma {:induction false} HandleAll(q: Queue, now: nat, room: nat)
    requires Waits(q) && room >= Due(q.list, q.last, now)
    ensures var k, q' := Due(q.list, q.last, now), Handled(q, now, room);
      && Waits(q') && q'.list == q.list[k..] && q'.work == q.work + Ids(q.list[..k])
      && q'.last == if k == |q.list| then q.last else now
    decreases |q.list|
  {
    hide IsDue, Ids;
    if q.list == [] || !IsDue(q.last, now, q.list[0].timeout) {
      IdsNone();
      assert q.list[0..] == q.list && q.list[..0] == [];
    } else {
      var t := q.list[0];
      var u := Queue(q.list[1..], q.flags[t.id := Expired], q.work + [t.id], q.last);
      HandleAll(u, now, room - 1);
      var k := Due(u.list, u.last, now);
      assert q.list[1..][k..] == q.list[k + 1..];
      IdsFirst(q.list[..k + 1]);
      assert q.list[..k + 1][1..] == q.list[1..][..k];
    }
  }

  /** The due timers are all handed over exactly if the work queue has room for them. */
  lemma {:induction false} HandedOverIff(q: Queue, now: nat, room: nat)
    requires Waits(q)
    ensures var k := Due(q.list, q.last, now);
      Handled(q, now, room).work == q.work + Ids(q.list[..k]) <==> room >= k
  {
    hide IsDue, Ids, Waits;
    var k := Due(q.list, q.last, now);
    if room >= k {
      HandleAll(q, now, room);
    } else {
      HandleSome(q, now, room);
      IdsAt(q.list[..room]);
      IdsAt(q.list[..k]);
    }
  }

  /** Without room for all, the first ones are handed over and the next one is marked where it stands. */
  lemma {:induction false} HandleSome(q: Queue, now: nat, room: nat)
    requires Waits(q) && room < Due(q.list, q.last, now)
    ensures var q' := Handled(q, now, room);
      && q'.work == q.work + Ids(q.list[..room]) && q'.list == q.list[room..] && q'.last == q.last
      && q.list[room].id in q'.flags && q'.flags[q.list[room].id] == Expired
    decreases |q.list|
  {
    hide IsDue, Ids;
    var t := q.list[0];
    if room == 0 {
      IdsNone();
      assert q.list[0..] == q.list && q.list[..0] == [];
    } else {
      var u := Queue(q.list[1..], q.flags[t.id := Expired], q.work + [t.id], q.last);
      HandleSome(u, now, room - 1);
      assert q.list[1..][room - 1..] == q.list[room..];
      IdsFirst(q.list[..room]);
      assert q.list[..room][1..] == q.list[1..][..room - 1];
    }
  }

  /** An entry whose flag is not Waiting is never handed over again: a refused timer is lost. */
  lemma {:induction false} NotAgain(q: Queue, now: nat, room: nat, id: nat)
    requires id in q.flags && q.flags[id] != Waiting
    ensures var q' := Handled(q, now, room);
      id in q'.flags && q'.flags[id] != Waiting && multiset(q'.work)[id] == multiset(q.work)[id]
    decreases |q.list|
  {
    hide IsDue;
    if q.list != [] && IsDue(q.last, now, q.list[0].timeout) {
      var t := q.list[0];
      if t.id !in q.flags || q.flags[t.id] != Waiting {
        NotAgain(q.(list := q.list[1..]), now, room, id);
      } else if room > 0 {
        NotAgain(Queue(q.list[1..], q.flags[t.id := Expired], q.work + [t.id], q.last), now, room - 1, id);
      }
    }
  }

  /** What happens to the queue: handler calls and added timers. */
  datatype QueueEvent = Handler(now: nat, room: nat) | Added(t: Timer, current: nat, wrapped: bool)

  function QueueStep(q: Queue, e: QueueEvent): Queue {
    match e
    case Handler(now, room) => Handled(q, now, room)
    case Added(t, current, wrapped) => q.(list := InsertFor(q.list, t, current, wrapped),
                                          flags := q.flags[t.id := Waiting])
  }

  function QueueRun(q: Queue, events: seq<QueueEvent>): Queue
    decreases |events|
  {
    if events == [] then q else QueueRun(QueueStep(q, events[0]), events[1..])
  }

  /** Over every run in which its entry is not used for a new timer, a timer whose flag is not Waiting is never handed
      over again. */
  lemma {:induction false} NeverAgain(q: Queue, events: seq<QueueEvent>, id: nat)
    requires id in q.flags && q.flags[id] != Waiting
    requires forall k :: 0 <= k < |events| && events[k].Added? ==> events[k].t.id != id
    ensures multiset(QueueRun(q, events).work)[id] == multiset(q.work)[id]
    decreases |events|
  {
    hide Handled, InsertFor;
    if events != [] {
      if events[0].Handler? { NotAgain(q, events[0].now, events[0].room, id); }
      NeverAgain(QueueStep(q, events[0]), events[1..], id);
    }
  }

  /** So a due timer that the work queue refuses is lost: it is the next one after those that were handed over. */
  lemma RefusedIsLost(q: Queue, now: nat, room: nat, events: seq<QueueEvent>)
    requires Waits(q) && room < Due(q.list, q.last, now)
    requires forall k :: 0 <= k < |events| && events[k].Added? ==> events[k].t.id != q.list[room].id
    ensures var q' := Handled(q, now, room); var id := q.list[room].id;
      multiset(QueueRun(q', events).work)[id] == multiset(q.work)[id]
  {
    hide Handled, Due, QueueRun, Ids;
    var q', id := Handled(q, now, room), q.list[room].id;
    HandleSome(q, now, room);
    NeverAgain(q', events, id);
    NotAmong(q.list, room);
  }

  /** The ids before a place are not the id at that place. */
  lemma {:induction false} NotAmong(list: seq<Timer>, k: nat)
    requires k < |list| && forall i, j :: 0 <= i < j < |list| ==> list[i].id != list[j].id
    ensures list[k].id !in Ids(list[..k])
  {
    NoneAmong(list, k, list[k].id);
  }

  lemma {:induction false} NoneAmong(list: seq<Timer>, k: nat, id: nat)
    requires k <= |list| && forall i :: 0 <= i < k ==> list[i].id != id
    ensures id !in Ids(list[..k])
    decreases k
  {
    if k > 0 {
      NoneAmong(list, k - 1, id);
      assert list[..k][..k - 1] == list[..k - 1];
    }
  }

  function Ids(list: seq<Timer>): seq<nat> { if list == [] then []
    else Ids(list[..|list| - 1]) + [list[|list| - 1].id] }

  lemma IdsNone()
    ensures Ids([]) == []
  {
  }

  lemma {:induction false} IdsConcat(a: seq<Timer>, b: seq<Timer>)
    ensures Ids(a + b) == Ids(a) + Ids(b)
    decreases |b|
  {
    if b == [] {
      assert a + b == a;
    } else {
      var n := |b| - 1;
      IdsConcat(a, b[..n]);
      assert (a + b)[..|a + b| - 1] == a + b[..n];
    }
  }

  lemma {:induction false} IdsAt(list: seq<Timer>)
    ensures |Ids(list)| == |list| && forall i :: 0 <= i < |list| ==> Ids(list)[i] == list[i].id
    decreases |list|
  {
    if list != [] { IdsAt(list[..|list| - 1]); }
  }

  lemma IdsFirst(list: seq<Timer>)
    requires list != []
    ensures Ids(list) == [list[0].id] + Ids(list[1..])
  {
    assert list == [list[0]] + list[1..];
    IdsConcat([list[0]], list[1..]);
    assert [list[0]][..0] == [];
    assert Ids([list[0]]) == Ids([]) + [list[0].id];
  }

}
