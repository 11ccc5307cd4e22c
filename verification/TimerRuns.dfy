/** Whole runs of the timer queue: ticks, handler calls and added timers, without wrap-around of the tick counter. */
module TimerRuns {
  import opened Collections
  import opened Timers

  /** `calls` are the ticks of the handler calls so far, `fired` the timers handed over, in order, `at` the calls that
      did it, `born` how many calls there had been when each timer was added, and `ran` how many of the timers handed
      over the worker has taken. */
  datatype State = State(list: seq<Timer>, last: nat, now: nat, next: nat, fired: seq<Timer>, at: seq<nat>,
                         calls: seq<nat>, born: seq<nat>, ran: nat)

  datatype Event = Tick | Handle | Add(ms: nat) | Work

  function Step(s: State, e: Event): State {
    match e
    case Tick => s.(now := s.now + 1)
    case Handle =>
      var k := Due(s.list, s.last, s.now);
      State(s.list[k..], if k == |s.list| then s.last else s.now, s.now, s.next, s.fired + s.list[..k],
            s.at + seq(k, _ => |s.calls|), s.calls + [s.now], s.born, s.ran)
    case Add(ms) =>
      State(Insert(s.list, Timer(s.next, s.now + ms / TIMER_INTERVAL_MS)), s.last, s.now, s.next + 1, s.fired,
            s.at, s.calls, s.born + [|s.calls|], s.ran)
    case Work => if s.ran < |s.fired| then s.(ran := s.ran + 1) else s
  }

  function Run(s: State, events: seq<Event>): State
    decreases |events|
  {
    if events == [] then s else Run(Step(s, events[0]), events[1..])
  }

  /** Nothing was added yet. */
  function Initial(now: nat): State { State([], 0, now, 0, [], [], [], [], 0) }

  /** The timeout of an added timer lies after the last processed tick. */
  predicate Timely(s: State, e: Event) { e.Add? ==> s.now + e.ms / TIMER_INTERVAL_MS > s.last }

  predicate TimelyRun(s: State, events: seq<Event>)
    decreases |events|
  {
    events == [] || (Timely(s, events[0]) && TimelyRun(Step(s, events[0]), events[1..]))
  }

  // ---------------------------------------------------------------- the invariant

  /** Timeout order, first come first served on ties. */
  predicate Before(a: Timer, b: Timer) { a.timeout < b.timeout || (a.timeout == b.timeout && a.id < b.id) }

  ghost predicate Ordered(all: seq<Timer>) { forall i, j :: 0 <= i < j < |all| ==> Before(all[i], all[j]) }

  /** Every added timer is there exactly once. */
  ghost predicate Complete(all: seq<Timer>, next: nat) {
    && |all| == next && (forall i :: 0 <= i < |all| ==> all[i].id < next)
    && (forall i, j :: 0 <= i < j < |all| ==> all[i].id != all[j].id)
  }

  /** None of the handler calls `from..to` was at or after the timeout. */
  ghost predicate Quiet(calls: seq<nat>, from: nat, to: nat, timeout: nat) {
    to <= |calls| && forall k :: from <= k < to ==> calls[k] < timeout
  }

  /** The timer was handed over by the first call, since it was added, at or after its timeout. */
  ghost predicate FiredOnTime(t: Timer, at: nat, calls: seq<nat>, born: seq<nat>) {
    t.id < |born| && born[t.id] <= at < |calls| && t.timeout <= calls[at] && Quiet(calls, born[t.id], at, t.timeout)
  }

  /** No call since the timer was added was at or after its timeout. */
  ghost predicate StillEarly(t: Timer, calls: seq<nat>, born: seq<nat>) {
    t.id < |born| && born[t.id] <= |calls| && Quiet(calls, born[t.id], |calls|, t.timeout)
  }

  ghost predicate OnTime(s: State) {
    && |s.at| == |s.fired| && |s.born| == s.next
    && (forall i :: 0 <= i < |s.calls| ==> s.calls[i] <= s.now)
    && (forall i :: 0 <= i < |s.fired| ==> FiredOnTime(s.fired[i], s.at[i], s.calls, s.born))
    && (forall i :: 0 <= i < |s.list| ==> StillEarly(s.list[i], s.calls, s.born))
  }

  ghost predicate Inv(s: State) {
    && s.last <= s.now && (forall i :: 0 <= i < |s.list| ==> s.list[i].timeout > s.last)
    && Ordered(s.fired + s.list) && Complete(s.fired + s.list, s.next) && OnTime(s)
    && s.ran <= |s.fired|
  }

  lemma InsertedOrdered(all: seq<Timer>, k: nat, t: Timer)
    requires Ordered(all) && k <= |all|
    requires (forall i :: 0 <= i < k ==> Before(all[i], t)) && (forall i :: k <= i < |all| ==> Before(t, all[i]))
    ensures Ordered(Inserted(all, k, t))
  {
  }

  lemma InsertedComplete(all: seq<Timer>, k: nat, t: Timer)
    requires Complete(all, t.id) && k <= |all|
    ensures Complete(Inserted(all, k, t), t.id + 1)
  {
  }

  lemma AddKeeps(s: State, ms: nat)
    requires Inv(s) && Timely(s, Add(ms))
    ensures Inv(Step(s, Add(ms)))
  {
    hide Complete, Inserted, StillEarly, Quiet;
    var t, all := Timer(s.next, s.now + ms / TIMER_INTERVAL_MS), s.fired + s.list;
    var i := InsertPlace(s.list, t);
    var k := |s.fired| + i;
    Smaller(all, s.next);
    Shifted(s.fired, s.list, i, t);
    assert forall j :: 0 <= j < k ==> Before(all[j], t) by {
      forall j | 0 <= j < k ensures Before(all[j], t) {
        if j < |s.fired| {
          assert all[j] == s.fired[j] && FiredOnTime(s.fired[j], s.at[j], s.calls, s.born);
        } else {
          assert all[j] == s.list[j - |s.fired|];
        }
      }
    }
    LaterAll(s.list, i, t, s.fired);
    InsertedOrdered(all, k, t);
    InsertedComplete(all, k, t);
    AddOnTime(s, ms, i);
  }

  lemma AddOnTime(s: State, ms: nat, i: nat)
    requires OnTime(s) && i <= |s.list|
    requires Step(s, Add(ms)).list == s.list[..i] + [Timer(s.next, s.now + ms / TIMER_INTERVAL_MS)] + s.list[i..]
    ensures OnTime(Step(s, Add(ms)))
  {
    hide Insert;
    var s' := Step(s, Add(ms));
    forall j | 0 <= j < |s'.fired| ensures FiredOnTime(s'.fired[j], s'.at[j], s'.calls, s'.born) {
      assert FiredOnTime(s.fired[j], s.at[j], s.calls, s.born);
    }
    forall j | 0 <= j < |s'.list| ensures StillEarly(s'.list[j], s'.calls, s'.born) {
      if j != i { assert StillEarly(s.list[if j < i then j else j - 1], s.calls, s.born); }
    }
  }

  lemma HandleOnTime(s: State)
    requires OnTime(s)
    requires var k := Due(s.list, s.last, s.now);
      && (forall i :: 0 <= i < k ==> s.list[i].timeout <= s.now)
      && (forall i :: k <= i < |s.list| ==> s.list[i].timeout > s.now)
    ensures OnTime(Step(s, Handle))
  {
    hide Due;
    var s', k := Step(s, Handle), Due(s.list, s.last, s.now);
    forall j | 0 <= j < |s'.fired| ensures FiredOnTime(s'.fired[j], s'.at[j], s'.calls, s'.born) {
      if j < |s.fired| {
        assert FiredOnTime(s.fired[j], s.at[j], s.calls, s.born);
      } else {
        assert StillEarly(s.list[j - |s.fired|], s.calls, s.born);
      }
    }
    forall j | 0 <= j < |s'.list| ensures StillEarly(s'.list[j], s'.calls, s'.born) {
      assert StillEarly(s.list[j + k], s.calls, s.born);
    }
  }

  lemma Smaller(all: seq<Timer>, next: nat)
    requires Complete(all, next)
    ensures forall i :: 0 <= i < |all| ==> all[i].id < next
  {
  }

  lemma Shifted(fired: seq<Timer>, list: seq<Timer>, i: nat, t: Timer)
    requires i <= |list|
    ensures fired + (list[..i] + [t] + list[i..]) == Inserted(fired + list, |fired| + i, t)
  {
    assert (fired + list)[..|fired| + i] == fired + list[..i];
    assert (fired + list)[|fired| + i..] == list[i..];
  }

  lemma LaterAll(list: seq<Timer>, i: nat, t: Timer, fired: seq<Timer>)
    requires Ordered(fired + list) && i <= |list| && (i < |list| ==> list[i].timeout > t.timeout)
    ensures forall j :: |fired| + i <= j < |fired| + |list| ==> Before(t, (fired + list)[j])
  {
    var all := fired + list;
    forall j | |fired| + i <= j < |all| ensures Before(t, all[j]) {
      assert all[|fired| + i] == list[i];
      assert j > |fired| + i ==> Before(all[|fired| + i], all[j]);
    }
  }

  /** A handler call leaves only timers that time out later, and hands over only timers whose time has come. */
  lemma HandleFacts(s: State)
    requires Inv(s)
    ensures var k := Due(s.list, s.last, s.now);
      && (forall i :: 0 <= i < k ==> s.list[i].timeout <= s.now)
      && (forall i :: k <= i < |s.list| ==> s.list[i].timeout > s.now)
  {
    var k := Due(s.list, s.last, s.now);
    DueFacts(s.list, s.last, s.now);
    forall i | k <= i < |s.list| ensures s.list[i].timeout > s.now {
      var all := s.fired + s.list;
      assert all[|s.fired| + k] == s.list[k] && all[|s.fired| + i] == s.list[i];
      assert i > k ==> Before(all[|s.fired| + k], all[|s.fired| + i]);
    }
  }

  lemma HandleKeeps(s: State)
    requires Inv(s)
    ensures Inv(Step(s, Handle)) && forall i :: 0 <= i < |Step(s, Handle).list| ==>
      Step(s, Handle).list[i].timeout > s.now
  {
    hide Complete, Ordered, Due;
    var k := Due(s.list, s.last, s.now);
    HandleFacts(s);
    HandleOnTime(s);
    assert (s.fired + s.list[..k]) + s.list[k..] == s.fired + s.list;
  }

  /** Every timely run keeps the invariant. */
  lemma {:induction false} RunsKeepInv(s: State, events: seq<Event>)
    requires Inv(s) && TimelyRun(s, events)
    ensures Inv(Run(s, events))
    decreases |events|
  {
    hide Inv;
    if events != [] {
      StepKeeps(s, events[0]);
      RunsKeepInv(Step(s, events[0]), events[1..]);
    }
  }

  lemma StepKeeps(s: State, e: Event)
    requires Inv(s) && Timely(s, e)
    ensures Inv(Step(s, e))
  {
    match e {
      case Tick =>
      case Handle => HandleKeeps(s);
      case Add(ms) => AddKeeps(s, ms);
      case Work => hide Ordered, Complete, FiredOnTime, StillEarly;
    }
  }

  lemma InitialInv(now: nat)
    ensures Inv(Initial(now))
  {
  }

  /** Every wait of at least one tick is timely. */
  lemma WholeTickIsTimely(s: State, ms: nat)
    requires Inv(s) && ms >= TIMER_INTERVAL_MS
    ensures Timely(s, Add(ms))
  {
    hide Ordered, Complete, OnTime;
  }

  // ---------------------------------------------------------------- the manager takes these steps

  /** The manager is in the state of the run: same list, same tick, and the work queue got the timers that fired. The
      callbacks of those that the worker has taken were called, in order, and the others are marked for it. */
  ghost predicate InState(m: LocalTimerManager, called: seq<nat>, s: State)
    reads m
  {
    && m.timerList == s.list && m.lastProcessedTimeout == s.last && m.work == Ids(s.fired) && m.AllWaiting()
    && (forall id :: id in m.flags ==> id < s.next) && Complete(s.fired + s.list, s.next)
    && s.ran <= |s.fired| && called == Ids(s.fired[..s.ran]) && Marked(m.flags, s.fired, s.ran)
  }

  /** The first `ran` of the timers handed over are Finished, the others Expired. */
  ghost predicate Marked(flags: map<nat, Flag>, fired: seq<Timer>, ran: nat) {
    forall i :: 0 <= i < |fired| ==> fired[i].id in flags && flags[fired[i].id] == if i < ran then Finished else Expired
  }

  /** Every timer that the worker has taken had its callback called exactly once, and no other timer had. */
  ghost predicate CalledOnce(called: seq<nat>, s: State) {
    && s.ran <= |s.fired|
    && (forall i :: 0 <= i < |s.fired| ==> multiset(called)[s.fired[i].id] == if i < s.ran then 1 else 0)
    && (forall i :: 0 <= i < |s.list| ==> multiset(called)[s.list[i].id] == 0)
  }

  /** A new manager follows every run in which the tick counter does not wrap and the work queue takes what it is given:
      every timer that the worker takes has its callback called exactly once, and on a timely run every timer is handed
      over once, on time and in order. */
  method Drive(m: LocalTimerManager, events: seq<Event>, start: nat) returns (called: seq<nat>, ghost s: State)
    requires m.Now() == Queue([], map[], [], 0) && start + |events| < TICKS
    requires forall k :: 0 <= k < |events| && events[k].Add? ==>
      start + |events| + events[k].ms / TIMER_INTERVAL_MS < TICKS
    modifies m
    ensures s == Run(Initial(start), events) && InState(m, called, s) && CalledOnce(called, s)
    ensures TimelyRun(Initial(start), events) ==> Inv(s)
  {
    hide Inv, Ids, Timers.Insert, Due, Complete, Marked, CalledOnce;
    s, called := Initial(start), [];
    NothingYet(start);
    var now, next, ran := start, 0, 0;
    assert events[0..] == events;
    for n := 0 to |events|
      invariant Run(s, events[n..]) == Run(Initial(start), events) && InState(m, called, s)
      invariant now == s.now <= start + n && next == s.next && ran == s.ran
    {
      assert events[n..][0] == events[n] && events[n..][1..] == events[n + 1..];
      match events[n] {
        case Tick => now := now + 1;
        case Handle => HandleTick(m, now, called, s);
        case Add(ms) =>
          AddOne(m, now, ms, next, called, s);
          next := next + 1;
        case Work => called, ran := WorkOne(m, called, ran, s);
      }
      s := Step(s, events[n]);
    }
    OnceEach(called, s);
    if TimelyRun(Initial(start), events) {
      InitialInv(start);
      RunsKeepInv(Initial(start), events);
    }
  }

  lemma NothingYet(start: nat)
    ensures Ids([]) == [] && Marked(map[], [], 0) && Complete(Initial(start).fired + Initial(start).list, 0)
  {
  }

  method HandleTick(m: LocalTimerManager, now: nat, ghost called: seq<nat>, ghost s: State)
    requires InState(m, called, s) && now == s.now
    modifies m
    ensures InState(m, called, Step(s, Handle))
  {
    hide Ids, Due, Complete, Marked, Flagged;
    ghost var q := m.Now();
    m.LocalTimerHandler(now, |m.timerList|);
    ghost var k := Due(s.list, s.last, s.now);
    IdsConcat(s.fired, s.list[..k]);
    assert s.fired + s.list[..k] + s.list[k..] == s.fired + s.list;
    assert (s.fired + s.list[..k])[..s.ran] == s.fired[..s.ran];
    HandleMarks(q, m.Now(), s, k);
    SameKeys(q, m.Now(), |s.list|);
  }

  lemma SameKeys(q: Queue, q': Queue, room: nat)
    requires Flagged(q, q', room)
    ensures q'.flags.Keys == q.flags.Keys
  {
  }

  /** The timers that were just handed over are Expired, and those of before are as they were. */
  lemma HandleMarks(q: Queue, q': Queue, s: State, k: nat)
    requires Flagged(q, q', |s.list|) && q.work == Ids(s.fired) && k <= |s.list| && q'.work == q.work + Ids(s.list[..k])
    requires Complete(s.fired + s.list, s.next) && Marked(q.flags, s.fired, s.ran) && s.ran <= |s.fired|
    requires q'.list == s.list[k..]
    ensures Marked(q'.flags, s.fired + s.list[..k], s.ran)
  {
    hide Ids;
    var all, fired := s.fired + s.list, s.fired + s.list[..k];
    IdsAt(s.fired);
    IdsAt(s.list[..k]);
    forall i | 0 <= i < |fired|
      ensures fired[i].id in q'.flags && q'.flags[fired[i].id] == if i < s.ran then Finished else Expired
    {
      assert fired[i] == all[i];
      if i < |s.fired| {
        NotNew(q, q', s, k, i);
      } else {
        assert q'.work[i] == fired[i].id;
      }
    }
  }

  lemma NotNew(q: Queue, q': Queue, s: State, k: nat, i: nat)
    requires Flagged(q, q', |s.list|) && q.work == Ids(s.fired) && k <= |s.list| && q'.work == q.work + Ids(s.list[..k])
    requires Complete(s.fired + s.list, s.next) && Marked(q.flags, s.fired, s.ran) && i < |s.fired|
    requires q'.list == s.list[k..]
    ensures s.fired[i].id in q.flags && q'.flags[s.fired[i].id] == q.flags[s.fired[i].id]
  {
    hide Ids;
    var all, id := s.fired + s.list, s.fired[i].id;
    IdsAt(s.list[..k]);
    assert q'.work[|q.work|..] == Ids(s.list[..k]);
    assert all[i] == s.fired[i];
    assert forall j :: 0 <= j < |s.list| ==> s.list[j].id != id by {
      forall j | 0 <= j < |s.list| ensures s.list[j].id != id { assert all[|s.fired| + j] == s.list[j]; }
    }
  }

  method AddOne(m: LocalTimerManager, now: nat, ms: nat, next: nat, ghost called: seq<nat>, ghost s: State)
    requires InState(m, called, s) && now == s.now && next == s.next && now + ms / TIMER_INTERVAL_MS < TICKS
    modifies m
    ensures InState(m, called, Step(s, Add(ms)))
  {
    hide Ids, Timers.Insert, Timers.InsertFor, Complete, Marked, Inserted;
    ghost var t := Timer(next, now + ms / TIMER_INTERVAL_MS);
    FreshId(s.fired, s.list, next);
    ghost var flags := m.flags;
    var ok := m.AddTimer(now, ms, Some(next));
    ghost var i := InsertPlace(s.list, t);
    Shifted(s.fired, s.list, i, t);
    InsertedComplete(s.fired + s.list, |s.fired| + i, t);
    OthersMarked(flags, s.fired, s.ran, next);
  }

  lemma FreshId(fired: seq<Timer>, list: seq<Timer>, next: nat)
    requires Complete(fired + list, next)
    ensures forall i :: 0 <= i < |list| ==> list[i].id != next
    ensures forall i :: 0 <= i < |fired| ==> fired[i].id != next
  {
    var all := fired + list;
    forall i | 0 <= i < |list| ensures list[i].id != next { assert all[|fired| + i] == list[i]; }
    forall i | 0 <= i < |fired| ensures fired[i].id != next { assert all[i] == fired[i]; }
  }

  lemma OthersMarked(flags: map<nat, Flag>, fired: seq<Timer>, ran: nat, id: nat)
    requires Marked(flags, fired, ran) && forall i :: 0 <= i < |fired| ==> fired[i].id != id
    ensures Marked(flags[id := Waiting], fired, ran)
  {
  }

  /** The worker takes the next entry of the work queue. */
  method WorkOne(m: LocalTimerManager, called: seq<nat>, ran: nat, ghost s: State)
    returns (called': seq<nat>, ran': nat)
    requires InState(m, called, s) && ran == s.ran
    modifies m
    ensures InState(m, called', Step(s, Work)) && ran' == Step(s, Work).ran
  {
    hide Ids, Complete;
    called', ran' := called, ran;
    IdsAt(s.fired);
    if ran < |m.work| {
      var id := m.work[ran];
      ghost var flags := m.flags;
      var ok := m.ExpiredTimerListWorker(id);
      if ok {
        called' := called + [id];
      }
      ran' := ran + 1;
      IdsStep(s.fired, ran);
      DistinctFired(s.fired, s.list, s.next);
      NotWaiting(s, id);
    }
  }

  lemma IdsStep(list: seq<Timer>, k: nat)
    requires k < |list|
    ensures Ids(list[..k + 1]) == Ids(list[..k]) + [list[k].id]
  {
    assert list[..k + 1][..k] == list[..k];
  }

  lemma DistinctFired(fired: seq<Timer>, list: seq<Timer>, next: nat)
    requires Complete(fired + list, next)
    ensures forall i, j :: 0 <= i < j < |fired| ==> fired[i].id != fired[j].id
    ensures forall i, j :: 0 <= i < |fired| && 0 <= j < |list| ==> fired[i].id != list[j].id
  {
    var all := fired + list;
    forall i, j | 0 <= i < j < |fired| ensures fired[i].id != fired[j].id {
      assert all[i] == fired[i] && all[j] == fired[j];
    }
    forall i, j | 0 <= i < |fired| && 0 <= j < |list| ensures fired[i].id != list[j].id {
      assert all[i] == fired[i] && all[|fired| + j] == list[j];
    }
  }

  lemma NotWaiting(s: State, id: nat)
    requires Complete(s.fired + s.list, s.next) && exists i :: 0 <= i < |s.fired| && s.fired[i].id == id
    ensures forall j :: 0 <= j < |s.list| ==> s.list[j].id != id
  {
    DistinctFired(s.fired, s.list, s.next);
  }

  lemma OnceEach(called: seq<nat>, s: State)
    requires s.ran <= |s.fired| && called == Ids(s.fired[..s.ran]) && Complete(s.fired + s.list, s.next)
    ensures CalledOnce(called, s)
  {
    hide Ids, Complete;
    DistinctFired(s.fired, s.list, s.next);
    IdsAt(s.fired[..s.ran]);
    forall i | 0 <= i < |s.fired| ensures multiset(called)[s.fired[i].id] == if i < s.ran then 1 else 0 {
      if i < s.ran { OneOf(called, i); } else { assert s.fired[i].id !in called; }
    }
    forall i | 0 <= i < |s.list| ensures multiset(called)[s.list[i].id] == 0 { assert s.list[i].id !in called; }
  }

  lemma OneOf(ids: seq<nat>, i: nat)
    requires i < |ids| && forall j :: 0 <= j < |ids| && j != i ==> ids[j] != ids[i]
    ensures multiset(ids)[ids[i]] == 1
  {
    assert ids == ids[..i] + [ids[i]] + ids[i + 1..];
    assert ids[i] !in ids[..i] && ids[i] !in ids[i + 1..];
  }

  // ---------------------------------------------------------------- exactly the timely timers are served

  /** The head of the list timed out at or before the last processed tick. */
  predicate Stuck(s: State) { s.list != [] && s.list[0].timeout <= s.last <= s.now }

  lemma StuckStep(s: State, e: Event)
    requires Stuck(s)
    ensures Stuck(Step(s, e)) && Step(s, e).fired == s.fired
  {
    if e.Add? {
      var t := Timer(s.next, s.now + e.ms / TIMER_INTERVAL_MS);
      var i := InsertPlace(s.list, t);
    }
  }

  /** From then on nothing is handed over any more. */
  lemma {:induction false} StuckForever(s: State, events: seq<Event>)
    requires Stuck(s)
    ensures Run(s, events).fired == s.fired
    decreases |events|
  {
    if events != [] {
      StuckStep(s, events[0]);
      StuckForever(Step(s, events[0]), events[1..]);
    }
  }

  function Ticks(n: nat): seq<Event> { if n == 0 then [Handle] else [Tick] + Ticks(n - 1) }

  lemma {:induction false} TicksRun(s: State, n: nat)
    requires Inv(s)
    ensures Run(s, Ticks(n)) == Step(s.(now := s.now + n), Handle) && Inv(s.(now := s.now + n))
    decreases n
  {
    if n > 0 {
      assert Ticks(n)[1..] == Ticks(n - 1) && Ticks(n)[0] == Tick;
      TicksRun(Step(s, Tick), n - 1);
      assert Step(s, Tick).(now := Step(s, Tick).now + (n - 1)) == s.(now := s.now + n);
    } else {
      assert Ticks(0)[1..] == [] && Ticks(0)[0] == Handle;
      assert s.(now := s.now + 0) == s;
    }
  }

  /** A timer is handed over by some run exactly if it was added timely. */
  lemma ServedIffTimely(s: State, ms: nat)
    requires Inv(s)
    ensures Timely(s, Add(ms)) <==>
      exists events :: Timer(s.next, s.now + ms / TIMER_INTERVAL_MS) in Run(Step(s, Add(ms)), events).fired
  {
    var t, s' := Timer(s.next, s.now + ms / TIMER_INTERVAL_MS), Step(s, Add(ms));
    var i := InsertPlace(s.list, t);
    if Timely(s, Add(ms)) {
      AddKeeps(s, ms);
      Served(s', i);
      assert s'.list[i] == t;
    } else {
      assert i == 0 && s'.list[0] == t;
      forall events ensures t !in Run(s', events).fired {
        StuckForever(s', events);
        NewId(s, t);
      }
    }
  }

  lemma NewId(s: State, t: Timer)
    requires Complete(s.fired + s.list, s.next) && t.id == s.next
    ensures t !in s.fired
  {
    forall i | 0 <= i < |s.fired| ensures s.fired[i] != t { assert (s.fired + s.list)[i] == s.fired[i]; }
  }

  lemma Served(s: State, i: nat)
    requires Inv(s) && i < |s.list|
    ensures exists events :: s.list[i] in Run(s, events).fired
  {
    var t := s.list[i];
    var n := if t.timeout > s.now then t.timeout - s.now else 0;
    TicksRun(s, n);
    var u := s.(now := s.now + n);
    HandleFacts(u);
    var k := Due(u.list, u.last, u.now);
    assert i < k;
    assert Step(u, Handle).fired[|s.fired| + i] == t;
    assert t in Run(s, Ticks(n)).fired;
  }

  /** A wait below one tick, added at the tick that was just processed, blocks the queue. */
  lemma ShortWaitBlocks()
    ensures var s := State([Timer(0, 9)], 5, 5, 1, [], [], [5], [0], 0);
      Inv(s) && !Timely(s, Add(3)) && Stuck(Step(s, Add(3)))
  {
    var s := State([Timer(0, 9)], 5, 5, 1, [], [], [5], [0], 0);
    assert Step(s, Add(3)).list[0] == Timer(1, 5);
  }
}
