/** RunQueue of src/kernel/task_manager/run_queue.rs: its loops, flags and lists, in place. Each locked region is one
    step. */
module RunQueues {
  import opened Collections
  import opened Scheduler

  datatype TaskStatus = New | Interruptible | Uninterruptible | Running | Stopped

  datatype TaskError = InvalidThreadEntry | ThreadLockError

  datatype Result<T> = Ok(value: T) | Err(error: TaskError)

  // ---------------------------------------------------------------- the loops over a list of lists

  lemma {:induction false} HighestSkip(ls: seq<RunList>, i: nat)
    requires i <= |ls| && forall j :: 0 <= j < i ==> ls[j].threads == []
    ensures Highest(ls) == Highest(ls[i..])
  {
    if i > 0 {
      HighestSkip(ls[1..], i - 1);
      assert ls[1..][i - 1..] == ls[i..];
    } else {
      assert ls[0..] == ls;
    }
  }

  method GetHighestPriorityThread(ls: seq<RunList>) returns (r: Option<Thread>)
    ensures r == Highest(ls)
  {
    for i := 0 to |ls|
      invariant forall j :: 0 <= j < i ==> ls[j].threads == []
    {
      HighestSkip(ls, i);
      if ls[i].threads != [] {
        return Some(ls[i].threads[0]);
      }
    }
    HighestSkip(ls, |ls|);
    return None;
  }

  lemma {:induction false} RemoveSkip(ls: seq<RunList>, i: nat, t: Thread, p: nat)
    requires i <= |ls| && forall j :: 0 <= j < i ==> ls[j].priority != p
    ensures Remove(ls, t, p) == if Remove(ls[i..], t, p).None? then None
      else Some(ls[..i] + Remove(ls[i..], t, p).value)
  {
    if i > 0 {
      RemoveSkip(ls[1..], i - 1, t, p);
      assert ls[1..][i - 1..] == ls[i..] && [ls[0]] + ls[1..][..i - 1] == ls[..i];
      if Remove(ls[i..], t, p).Some? {
        var rest := Remove(ls[i..], t, p).value;
        assert [ls[0]] + (ls[1..][..i - 1] + rest) == ls[..i] + rest;
      }
    } else {
      assert ls[0..] == ls;
      if Remove(ls, t, p).Some? { assert ls[..0] + Remove(ls, t, p).value == Remove(ls, t, p).value; }
    }
  }

  lemma RemoveHere(ls: seq<RunList>, i: nat, t: Thread)
    requires i < |ls| && forall j :: 0 <= j < i ==> ls[j].priority != ls[i].priority
    ensures Remove(ls, t, ls[i].priority) == Some(ls[i := RunList(ls[i].priority, Drop(ls[i].threads, t))])
  {
    RemoveSkip(ls, i, t, ls[i].priority);
    assert ls[i..][0] == ls[i];
    assert ls[i..][1..] == ls[i + 1..];
    var l := RunList(ls[i].priority, Drop(ls[i].threads, t));
    assert ls[..i] + ([l] + ls[i + 1..]) == ls[i := l];
  }

  /** remove_target_thread, on the given lists. */
  method RemoveTargetThread(ls: seq<RunList>, t: Thread, p: nat) returns (r: Result<seq<RunList>>)
    ensures Remove(ls, t, p).Some? ==> r == Ok(Remove(ls, t, p).value)
    ensures Remove(ls, t, p).None? ==> r == Err(InvalidThreadEntry)
    ensures r.Err? <==> forall j :: 0 <= j < |ls| ==> ls[j].priority != p
  {
    for i := 0 to |ls|
      invariant forall j :: 0 <= j < i ==> ls[j].priority != p
    {
      if ls[i].priority == p {
        RemoveHere(ls, i, t);
        return Ok(ls[i := RunList(p, Drop(ls[i].threads, t))]);
      }
    }
    RemoveSkip(ls, |ls|, t, p);
    return Err(InvalidThreadEntry);
  }

  lemma {:induction false} AddSkip(ls: seq<RunList>, i: nat, t: Thread, p: nat)
    requires i <= |ls| && forall j :: 0 <= j < i ==> ls[j].priority < p
    ensures Add(ls, t, p) == ls[..i] + Add(ls[i..], t, p) && LastAt(ls, p) == LastAt(ls[i..], p)
  {
    if i > 0 {
      AddSkip(ls[1..], i - 1, t, p);
      assert ls[1..][i - 1..] == ls[i..] && [ls[0]] + ls[1..][..i - 1] == ls[..i];
      assert [ls[0]] + (ls[1..][..i - 1] + Add(ls[i..], t, p)) == ls[..i] + Add(ls[i..], t, p);
    } else {
      assert ls[0..] == ls;
      assert ls[..0] + Add(ls, t, p) == Add(ls, t, p);
    }
  }

  /** The list for the priority is the `i`-th. */
  lemma AddHere(ls: seq<RunList>, i: nat, t: Thread)
    requires i < |ls| && forall j :: 0 <= j < i ==> ls[j].priority < ls[i].priority
    ensures Add(ls, t, ls[i].priority) == ls[i := RunList(ls[i].priority, ls[i].threads + [t])]
    ensures LastAt(ls, ls[i].priority) == if ls[i].threads == [] then None else Some(ls[i].threads[|ls[i].threads| - 1])
  {
    AddSkip(ls, i, t, ls[i].priority);
    assert ls[i..][0] == ls[i];
    assert ls[i..][1..] == ls[i + 1..];
    var l := RunList(ls[i].priority, ls[i].threads + [t]);
    assert ls[..i] + ([l] + ls[i + 1..]) == ls[i := l];
  }

  /** A new list goes before the `i`-th, or to the end. */
  lemma AddBefore(ls: seq<RunList>, i: nat, t: Thread, p: nat)
    requires i <= |ls| && (forall j :: 0 <= j < i ==> ls[j].priority < p) && (i < |ls| ==> ls[i].priority > p)
    ensures Add(ls, t, p) == ls[..i] + [RunList(p, [t])] + ls[i..] && LastAt(ls, p) == None
  {
    AddSkip(ls, i, t, p);
    if i < |ls| {
      assert ls[i..][0] == ls[i];
      assert ls[..i] + ([RunList(p, [t])] + ls[i..]) == ls[..i] + [RunList(p, [t])] + ls[i..];
    } else {
      assert ls[i..] == [];
    }
  }

  /** The list part of _add_thread; `held` are the thread locks that are taken. */
  method AddToLists(ls: seq<RunList>, t: Thread, p: nat, held: set<Thread>) returns (r: Result<seq<RunList>>)
    requires Ordered(ls)
    ensures r.Ok? ==> r.value == Add(ls, t, p)
    ensures r.Err? <==> LastAt(ls, p).Some? && LastAt(ls, p).value in held
    ensures r.Err? ==> r.error == ThreadLockError
  {
    hide Ordered;
    var i := 0;
    while i < |ls|
      invariant i <= |ls| && forall j :: 0 <= j < i ==> ls[j].priority < p
    {
      if ls[i].priority == p {
        AddHere(ls, i, t);
        var threads := ls[i].threads;
        if threads != [] && threads[|threads| - 1] in held {
          return Err(ThreadLockError);
        }
        return Ok(ls[i := RunList(p, threads + [t])]);
      }
      if ls[i].priority > p {
        AddBefore(ls, i, t, p);
        return Ok(ls[..i] + [RunList(p, [t])] + ls[i..]);
      }
      i := i + 1;
    }
    AddBefore(ls, i, t, p);
    assert ls[..i] + [RunList(p, [t])] + ls[i..] == ls + [RunList(p, [t])];
    return Ok(ls + [RunList(p, [t])]);
  }

  lemma {:induction false} LastQueued(ls: seq<RunList>, p: nat)
    ensures LastAt(ls, p).Some? ==> LastAt(ls, p).value in Queued(ls)
  {
    if ls != [] && ls[0].priority < p {
      LastQueued(ls[1..], p);
    } else if ls != [] && ls[0].threads != [] {
      assert ls[0].threads[|ls[0].threads| - 1] in multiset(ls[0].threads);
    }
  }

  /** What the expired lists hold is not locked by `_schedule`. */
  lemma ExpiredUnlocked(q: Queue, idle: Thread, prio: Thread -> nat, next: Option<Thread>)
    requires Inv(q, idle, prio) && q.running != idle && next == After(q.run, q.running, prio(q.running))
    ensures LastAt(q.expired, prio(q.running)).Some? ==>
      var last := LastAt(q.expired, prio(q.running)).value; last != q.running && (next.Some? ==> last != next.value)
  {
    hide Queued, IsHead, Ordered, AtHome, LastAt, After, Remove;
    LastQueued(q.expired, prio(q.running));
    HeadQueued(q.run, q.running, prio(q.running));
    LeaveKeeps(q, true, idle, prio);
    assert next.Some? ==> next.value in Queued(q.run);
    if LastAt(q.expired, prio(q.running)).Some? {
      InOneOnly(Queued(q.run), Queued(q.expired), LastAt(q.expired, prio(q.running)).value);
    }
  }

  lemma InOneOnly(a: multiset<Thread>, b: multiset<Thread>, t: Thread)
    requires (a + b)[t] <= 1 && t in b
    ensures t !in a
  {
  }

  class RunQueue {
    var runList: seq<RunList>
    var expiredList: seq<RunList>
    var runningThread: Thread
    const idleThread: Thread
    const priority: Thread -> nat
    var status: map<Thread, TaskStatus>
    var shouldRecheckPriority: bool
    var shouldReschedule: bool

    ghost function Now(): Queue
      reads this
    {
      Queue(runList, expiredList, runningThread, shouldRecheckPriority)
    }

    predicate Ready(t: Thread)
      reads this`status
    {
      t in status && status[t] == Running
    }

    /** The invariant of the queue, and every queued thread except perhaps the running one is ready. */
    ghost predicate ValidBut()
      reads this
    {
      && Inv(Now(), idleThread, priority) && Ready(idleThread)
      && forall t :: t in Members(Now()) && t != runningThread ==> Ready(t)
    }

    ghost predicate Valid()
      reads this
    {
      ValidBut() && Ready(runningThread)
    }

    constructor (idle: Thread, prio: Thread -> nat)
      ensures Valid() && idleThread == idle && priority == prio && runningThread == idle && Members(Now()) == multiset{}
    {
      runList, expiredList := [], [];
      runningThread, idleThread, priority := idle, idle, prio;
      status := map[idle := Running];
      shouldRecheckPriority, shouldReschedule := false, false;
    }

    /** add_thread: the lock of the last thread of its list can be taken, because only `t` is locked. */
    method AddThread(t: Thread) returns (r: Result<()>)
      requires Valid() && t !in Members(Now()) && t != idleThread
      modifies this`runList, this`status, this`shouldRecheckPriority, this`shouldReschedule
      ensures Valid() && r.Ok?
      ensures Now() == Wake(old(Now()), t, priority) && status == old(status)[t := Running]
      ensures shouldReschedule == (old(shouldReschedule) || priority(t) > priority(runningThread))
    {
      hide Queued, IsHead, Ordered, AtHome, Add, LastAt;
      WakeKeeps(Now(), t, idleThread, priority);
      LastQueued(runList, priority(t));
      var added := AddToLists(runList, t, priority(t), {t});
      runList := added.value;
      status := status[t := Running];
      if priority(t) > priority(runningThread) {
        shouldRecheckPriority := true;
        shouldReschedule := true;
      }
      return Ok(());
    }

    /** The macro of _schedule that picks a thread when the running one has no successor. */
    method GetNextThread() returns (next: Thread)
      modifies this`runList, this`expiredList
      ensures PickNext(old(runList), old(expiredList), idleThread, shouldRecheckPriority) ==
        Queue(runList, expiredList, next, shouldRecheckPriority)
      ensures old(Lists(Now(), priority)) ==>
        && (if Queued(old(runList)) != multiset{} then runList == old(runList) && expiredList == old(expiredList)
            else runList == old(expiredList) && expiredList == old(runList))
        && (if Queued(runList) != multiset{} then Leads(runList, next, priority) else next == idleThread)
    {
      hide Queued, Ordered, AtHome, Highest, Leads;
      if Lists(Now(), priority) {
        HighestLeads(runList, priority);
        HighestLeads(expiredList, priority);
      }
      var t := GetHighestPriorityThread(runList);
      if t.Some? {
        return t.value;
      }
      runList, expiredList := expiredList, runList;
      t := GetHighestPriorityThread(runList);
      return if t.Some? then t.value else idleThread;
    }

    /** The running thread leaves the active lists: neither `expect` of _schedule can fail. */
    method Leave(next: Option<Thread>)
      requires ValidBut() && runningThread != idleThread &&
        next == After(runList, runningThread, priority(runningThread))
      modifies this`runList, this`expiredList
      ensures runList == Active(old(Now()), idleThread, priority)
      ensures expiredList == Expired(old(Now()), !Ready(runningThread), idleThread, priority)
    {
      hide Queued, IsHead, Ordered, AtHome, LastAt, After, Remove, Add;
      var p := priority(runningThread);
      LeaveKeeps(Now(), true, idleThread, priority);
      ExpiredUnlocked(Now(), idleThread, priority, next);
      var held := {runningThread} + (if next.Some? then {next.value} else {});
      var removed := RemoveTargetThread(runList, runningThread, p);
      assert removed.Ok?;
      runList := removed.value;
      if Ready(runningThread) {
        var added := AddToLists(expiredList, runningThread, p, held);
        assert added.Ok?;
        expiredList := added.value;
      }
    }

    /** The first part of _schedule: the running thread leaves, and the next one is chosen. */
    method ChooseNext() returns (nextThread: Thread)
      requires ValidBut()
      modifies this`runList, this`expiredList, this`shouldRecheckPriority
      ensures Queue(runList, expiredList, nextThread, shouldRecheckPriority) ==
        Switch(old(Now()), !Ready(runningThread), idleThread, priority)
    {
      hide Queued, IsHead, Ordered, AtHome, After, Remove, Add, Highest, Members, PickNext;
      LeaveKeeps(Now(), !Ready(runningThread), idleThread, priority);
      var next := if runningThread == idleThread then None else After(runList, runningThread, priority(runningThread));
      if next.Some? {
        assert runningThread != idleThread;
        Leave(next);
        nextThread := next.value;
        if shouldRecheckPriority {
          shouldRecheckPriority := false;
          var t := GetHighestPriorityThread(runList);
          nextThread := if t.Some? then t.value else nextThread;
        }
      } else {
        if runningThread != idleThread {
          Leave(next);
        }
        nextThread := GetNextThread();
      }
    }

    /** _schedule: its `expect`s and its status assertion hold, and it takes the step of the model. */
    method Schedule()
      requires ValidBut() && (runningThread == idleThread ==> Ready(runningThread))
      modifies this`runList, this`expiredList, this`runningThread, this`shouldRecheckPriority, this`shouldReschedule
      ensures Valid()
      ensures Now() == Switch(old(Now()), !old(Ready(runningThread)), idleThread, priority)
      ensures Chooses(old(Now()), Now(), !old(Ready(runningThread)), idleThread, priority)
      ensures shouldReschedule == (runningThread == old(runningThread) && old(shouldReschedule))
    {
      hide Inv, Members, Switch, Chooses;
      SwitchKeeps(Now(), !Ready(runningThread), idleThread, priority);
      SwitchChooses(Now(), !Ready(runningThread), idleThread, priority);
      NextIsMember(Now(), !Ready(runningThread), idleThread, priority);
      var nextThread := ChooseNext();
      assert Ready(nextThread);
      if runningThread == nextThread {
        return;
      }
      shouldReschedule := false;
      runningThread := nextThread;
    }

    /** sleep_current_thread. */
    method SleepCurrentThread(s: TaskStatus)
      requires Valid() && s != Running && runningThread != idleThread
      modifies this`runList, this`expiredList, this`runningThread, this`shouldRecheckPriority, this`shouldReschedule,
        this`status
      ensures Valid() && status == old(status)[old(runningThread) := s]
      ensures Now() == Switch(old(Now()), true, idleThread, priority)
      ensures Chooses(old(Now()), Now(), true, idleThread, priority)
      ensures old(runningThread) !in Members(Now()) &&
        Members(Now()) == old(Members(Now())) - multiset{old(runningThread)}
    {
      hide Inv, Members, Chooses;
      SwitchKeeps(Now(), true, idleThread, priority);
      SleeperLeaves(Now(), idleThread, priority);
      status := status[runningThread := s];
      Schedule();
    }
  }

  lemma SleeperLeaves(q: Queue, idle: Thread, prio: Thread -> nat)
    requires Inv(q, idle, prio) && q.running != idle
    ensures q.running !in Members(q) - multiset{q.running}
  {
  }

  lemma NextIsMember(q: Queue, sleeps: bool, idle: Thread, prio: Thread -> nat)
    requires Inv(q, idle, prio)
    ensures var q' := Switch(q, sleeps, idle, prio);
      (q'.running == idle || q'.running in Members(q)) && (sleeps && q.running != idle ==> q'.running != q.running)
    ensures forall t :: t in Members(Switch(q, sleeps, idle, prio)) ==>
      t in Members(q) && (sleeps && q.running != idle ==> t != q.running)
  {
    hide Queued, IsHead, Ordered, AtHome, Switch;
    var q' := Switch(q, sleeps, idle, prio);
    SwitchKeeps(q, sleeps, idle, prio);
    if q'.running != idle {
      HeadQueued(q'.run, q'.running, prio(q'.running));
      assert q'.running in Members(q');
    }
    if sleeps && q.running != idle { SleeperLeaves(q, idle, prio); }
  }
}
