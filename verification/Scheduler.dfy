/** The active/expired run queue of src/kernel/task_manager/run_queue.rs, on values. */
module Scheduler {
  import opened Collections

  type Thread = nat

  /** The threads of one priority level; the list object stays when its last thread leaves. */
  datatype RunList = RunList(priority: nat, threads: seq<Thread>)

  // ---------------------------------------------------------------- one list of lists

  /** Where `_add_thread` puts a thread of priority `p`. */
  function Add(ls: seq<RunList>, t: Thread, p: nat): seq<RunList> {
    if ls == [] then [RunList(p, [t])]
    else if ls[0].priority == p then [RunList(p, ls[0].threads + [t])] + ls[1..]
    else if ls[0].priority > p then [RunList(p, [t])] + ls
    else [ls[0]] + Add(ls[1..], t, p)
  }

  /** The last thread of the list for priority `p`: the one whose lock `_add_thread` tries. */
  function LastAt(ls: seq<RunList>, p: nat): Option<Thread> {
    if ls == [] || ls[0].priority > p then None
    else if ls[0].priority == p then (if ls[0].threads == [] then None else Some(ls[0].threads[|ls[0].threads| - 1]))
    else LastAt(ls[1..], p)
  }

  function Drop(ts: seq<Thread>, t: Thread): seq<Thread> {
    if ts == [] then [] else if ts[0] == t then ts[1..] else [ts[0]] + Drop(ts[1..], t)
  }

  /** `remove_target_thread`: None if there is no list for the priority. */
  function Remove(ls: seq<RunList>, t: Thread, p: nat): Option<seq<RunList>> {
    if ls == [] then None
    else if ls[0].priority == p then Some([RunList(p, Drop(ls[0].threads, t))] + ls[1..])
    else
      var rest := Remove(ls[1..], t, p);
      if rest.None? then None else Some([ls[0]] + rest.value)
  }

  /** `get_highest_priority_thread`: the head of the first list that has a thread. */
  function Highest(ls: seq<RunList>): Option<Thread> {
    if ls == [] then None else if ls[0].threads != [] then Some(ls[0].threads[0]) else Highest(ls[1..])
  }

  /** The thread after the head `t` of the list for priority `p`. */
  function After(ls: seq<RunList>, t: Thread, p: nat): Option<Thread> {
    if ls == [] then None
    else if ls[0].priority == p then
      (if |ls[0].threads| > 1 && ls[0].threads[0] == t then Some(ls[0].threads[1]) else None)
    else After(ls[1..], t, p)
  }

  // ---------------------------------------------------------------- what the lists keep

  ghost function Queued(ls: seq<RunList>): multiset<Thread> {
    if ls == [] then multiset{} else multiset(ls[0].threads) + Queued(ls[1..])
  }

  /** Strictly ordered by priority. */
  predicate Ordered(ls: seq<RunList>) {
    |ls| <= 1 || (ls[0].priority < ls[1].priority && Ordered(ls[1..]))
  }

  /** Every thread is in the list of its priority. */
  ghost predicate AtHome(ls: seq<RunList>, prio: Thread -> nat) {
    ls == [] || ((forall t :: t in ls[0].threads ==> prio(t) == ls[0].priority) && AtHome(ls[1..], prio))
  }

  /** `t` is the head of the list for priority `p`. */
  predicate IsHead(ls: seq<RunList>, t: Thread, p: nat) {
    ls != [] && if ls[0].priority == p then ls[0].threads != [] && ls[0].threads[0] == t else IsHead(ls[1..], t, p)
  }

  /** The first list and the rest after an insertion. */
  lemma AddParts(ls: seq<RunList>, t: Thread, p: nat)
    ensures var r := Add(ls, t, p); r != []
    ensures var r := Add(ls, t, p); ls == [] ==> r[0] == RunList(p, [t]) && r[1..] == []
    ensures var r := Add(ls, t, p); ls != [] && ls[0].priority == p ==>
      r[0] == RunList(p, ls[0].threads + [t]) && r[1..] == ls[1..]
    ensures var r := Add(ls, t, p); ls != [] && ls[0].priority > p ==> r[0] == RunList(p, [t]) && r[1..] == ls
    ensures var r := Add(ls, t, p); ls != [] && ls[0].priority < p ==> r[0] == ls[0] && r[1..] == Add(ls[1..], t, p)
  {
  }

  lemma {:induction false} AddOrdered(ls: seq<RunList>, t: Thread, p: nat)
    requires Ordered(ls)
    ensures Ordered(Add(ls, t, p)) && |Add(ls, t, p)| > 0
    ensures Add(ls, t, p)[0].priority == p || (ls != [] && Add(ls, t, p)[0].priority == ls[0].priority)
  {
    AddParts(ls, t, p);
    hide Add;
    var r := Add(ls, t, p);
    if ls != [] && ls[0].priority < p {
      AddOrdered(ls[1..], t, p);
      assert r[1..][0] == r[1];
    }
  }

  lemma {:induction false} AddAtHome(ls: seq<RunList>, t: Thread, p: nat, prio: Thread -> nat)
    requires AtHome(ls, prio) && prio(t) == p
    ensures AtHome(Add(ls, t, p), prio)
  {
    AddParts(ls, t, p);
    hide Add;
    if ls != [] && ls[0].priority < p { AddAtHome(ls[1..], t, p, prio); }
  }

  lemma {:induction false} AddQueued(ls: seq<RunList>, t: Thread, p: nat)
    ensures Queued(Add(ls, t, p)) == Queued(ls) + multiset{t}
  {
    AddParts(ls, t, p);
    hide Add;
    if ls != [] && ls[0].priority < p { AddQueued(ls[1..], t, p); }
  }

  lemma {:induction false} AddHead(ls: seq<RunList>, t: Thread, p: nat, u: Thread, q: nat)
    requires Ordered(ls) && IsHead(ls, u, q)
    ensures IsHead(Add(ls, t, p), u, q)
  {
    AddParts(ls, t, p);
    hide Add;
    if ls[0].priority > p {
      HeadAbove(ls, u, q);
    } else if ls[0].priority < p && ls[0].priority != q {
      AddHead(ls[1..], t, p, u, q);
    }
  }

  lemma {:induction false} HeadAbove(ls: seq<RunList>, u: Thread, q: nat)
    requires Ordered(ls) && IsHead(ls, u, q)
    ensures q >= ls[0].priority
  {
    if ls[0].priority != q { HeadAbove(ls[1..], u, q); }
  }

  lemma {:induction false} RemoveHead(ls: seq<RunList>, t: Thread, p: nat, prio: Thread -> nat)
    requires Ordered(ls) && AtHome(ls, prio) && IsHead(ls, t, p)
    ensures Remove(ls, t, p).Some?
    ensures var r := Remove(ls, t, p).value;
      && Ordered(r) && AtHome(r, prio) && Queued(ls) == Queued(r) + multiset{t} && |r| == |ls|
      && r[0].priority == ls[0].priority
      && (After(ls, t, p).Some? ==> IsHead(r, After(ls, t, p).value, p) && prio(After(ls, t, p).value) == p)
  {
    if ls[0].priority == p {
      RemoveFromFirst(ls, t, p, prio);
    } else {
      RemoveHead(ls[1..], t, p, prio);
      RemoveFromLater(ls, t, p);
      var r := Remove(ls, t, p).value;
      hide Remove, IsHead, After;
      assert |ls| > 1 ==> ls[1..][0] == ls[1] && r[1] == r[1..][0];
    }
  }

  lemma RemoveFromLater(ls: seq<RunList>, t: Thread, p: nat)
    requires ls != [] && ls[0].priority != p && Remove(ls[1..], t, p).Some?
    ensures Remove(ls, t, p).Some?
    ensures var r := Remove(ls, t, p).value; r != [] && r[0] == ls[0] && r[1..] == Remove(ls[1..], t, p).value
    ensures After(ls, t, p) == After(ls[1..], t, p)
    ensures var r := Remove(ls, t, p).value; forall u :: IsHead(r, u, p) == IsHead(r[1..], u, p)
  {
  }

  lemma RemoveFromFirst(ls: seq<RunList>, t: Thread, p: nat, prio: Thread -> nat)
    requires Ordered(ls) && AtHome(ls, prio) && IsHead(ls, t, p) && ls[0].priority == p
    ensures Remove(ls, t, p).Some?
    ensures var r := Remove(ls, t, p).value;
      && Ordered(r) && AtHome(r, prio) && Queued(ls) == Queued(r) + multiset{t} && |r| == |ls|
      && r[0].priority == ls[0].priority
      && (After(ls, t, p).Some? ==> IsHead(r, After(ls, t, p).value, p) && prio(After(ls, t, p).value) == p)
  {
    var r := Remove(ls, t, p).value;
    assert ls[0].threads == [t] + ls[0].threads[1..];
    assert multiset(ls[0].threads) == multiset{t} + multiset(ls[0].threads[1..]);
    assert r[1..] == ls[1..];
    assert |ls| > 1 ==> r[1] == ls[1];
  }

  lemma {:induction false} HighestFacts(ls: seq<RunList>, prio: Thread -> nat)
    requires Ordered(ls) && AtHome(ls, prio)
    ensures Highest(ls).None? <==> Queued(ls) == multiset{}
    ensures Highest(ls).Some? ==> var t := Highest(ls).value; IsHead(ls, t, prio(t)) && t in Queued(ls)
    ensures Highest(ls).Some? ==> forall t :: t in Queued(ls) ==> prio(Highest(ls).value) <= prio(t)
  {
    if ls != [] {
      HighestFacts(ls[1..], prio);
      if ls[0].threads != [] {
        assert ls[0].threads[0] in multiset(ls[0].threads);
        AboveFirst(ls, prio);
      } else if Highest(ls).Some? {
        AboveFirst(ls, prio);
      }
    }
  }

  lemma {:induction false} AboveFirst(ls: seq<RunList>, prio: Thread -> nat)
    requires Ordered(ls) && AtHome(ls, prio) && ls != []
    ensures forall t :: t in Queued(ls) ==> ls[0].priority <= prio(t)
    ensures forall t :: t in Queued(ls[1..]) ==> ls[0].priority < prio(t)
  {
    if |ls| > 1 { AboveFirst(ls[1..], prio); }
  }

  // ---------------------------------------------------------------- steps of the run queue

  datatype Queue = Queue(run: seq<RunList>, expired: seq<RunList>, running: Thread, recheck: bool)

  /** `add_thread` of a thread that is not queued. */
  function Wake(q: Queue, t: Thread, prio: Thread -> nat): Queue {
    q.(run := Add(q.run, t, prio(t)), recheck := q.recheck || prio(t) > prio(q.running))
  }

  /** The next thread when the running one had no successor: the lists are swapped if the active ones are empty. */
  function PickNext(run: seq<RunList>, expired: seq<RunList>, idle: Thread, recheck: bool): Queue {
    if Highest(run).Some? then Queue(run, expired, Highest(run).value, recheck)
    else Queue(expired, run, if Highest(expired).Some? then Highest(expired).value else idle, recheck)
  }

  /** `_schedule`; `sleeps` says that the running thread was put to sleep before. */
  function Switch(q: Queue, sleeps: bool, idle: Thread, prio: Thread -> nat): Queue {
    if q.running == idle then PickNext(q.run, q.expired, idle, q.recheck)
    else
      var p := prio(q.running);
      var run := if Remove(q.run, q.running, p).Some? then Remove(q.run, q.running, p).value else q.run;
      var expired := if sleeps then q.expired else Add(q.expired, q.running, p);
      var next := After(q.run, q.running, p);
      if next.None? then PickNext(run, expired, idle, q.recheck)
      else if q.recheck && Highest(run).Some? then Queue(run, expired, Highest(run).value, false)
      else Queue(run, expired, next.value, false)
  }

  ghost function Members(q: Queue): multiset<Thread> { Queued(q.run) + Queued(q.expired) }

  ghost predicate Lists(q: Queue, prio: Thread -> nat) {
    Ordered(q.run) && Ordered(q.expired) && AtHome(q.run, prio) && AtHome(q.expired, prio)
  }

  /** What every step keeps. */
  ghost predicate Inv(q: Queue, idle: Thread, prio: Thread -> nat) {
    && Lists(q, prio)
    && (forall t :: Members(q)[t] <= 1)
    && idle !in Members(q)
    && (q.running == idle || IsHead(q.run, q.running, prio(q.running)))
  }

  lemma {:induction false} HeadQueued(ls: seq<RunList>, t: Thread, p: nat)
    requires IsHead(ls, t, p)
    ensures t in Queued(ls)
  {
    if ls[0].priority == p {
      assert ls[0].threads[0] in multiset(ls[0].threads);
    } else {
      HeadQueued(ls[1..], t, p);
    }
  }

  lemma WakeKeeps(q: Queue, t: Thread, idle: Thread, prio: Thread -> nat)
    requires Inv(q, idle, prio) && t !in Members(q) && t != idle
    ensures Inv(Wake(q, t, prio), idle, prio) && Members(Wake(q, t, prio)) == Members(q) + multiset{t}
  {
    hide Add, Ordered, AtHome, IsHead;
    AddOrdered(q.run, t, prio(t));
    AddAtHome(q.run, t, prio(t), prio);
    AddQueued(q.run, t, prio(t));
    assert Members(Wake(q, t, prio)) == Members(q) + multiset{t};
    OnceMore(Members(q), t);
    if q.running != idle { AddHead(q.run, t, prio(t), q.running, prio(q.running)); }
  }

  lemma OnceMore(m: multiset<Thread>, t: Thread)
    requires (forall u :: m[u] <= 1) && t !in m
    ensures forall u :: (m + multiset{t})[u] <= 1
  {
  }

  lemma OnceLess(m: multiset<Thread>, t: Thread)
    requires forall u :: m[u] <= 1
    ensures forall u :: (m - multiset{t})[u] <= 1
  {
  }

  /** The lists when the running thread has left the active ones and, unless it sleeps, joined the expired ones. */
  function Active(q: Queue, idle: Thread, prio: Thread -> nat): seq<RunList> {
    if q.running == idle || Remove(q.run, q.running, prio(q.running)).None? then q.run
    else Remove(q.run, q.running, prio(q.running)).value
  }

  function Expired(q: Queue, sleeps: bool, idle: Thread, prio: Thread -> nat): seq<RunList> {
    if q.running == idle || sleeps then q.expired else Add(q.expired, q.running, prio(q.running))
  }

  /** The next thread heads a list of the active ones, of the swapped ones if those were empty, or is idle. */
  ghost predicate Landed(q: Queue, run: seq<RunList>, expired: seq<RunList>, idle: Thread, prio: Thread -> nat) {
    if Queued(run) != multiset{} then
      q.run == run && q.expired == expired && q.running in Queued(run) && IsHead(run, q.running, prio(q.running))
    else
      && q.run == expired && q.expired == run
      && if Queued(expired) != multiset{}
        then q.running in Queued(expired) && IsHead(expired, q.running, prio(q.running))
         else q.running == idle
  }

  lemma PickNextLands(run: seq<RunList>, expired: seq<RunList>, idle: Thread, recheck: bool, prio: Thread -> nat)
    requires Ordered(run) && Ordered(expired) && AtHome(run, prio) && AtHome(expired, prio)
    ensures Landed(PickNext(run, expired, idle, recheck), run, expired, idle, prio)
  {
    hide Ordered, AtHome, IsHead, Queued, Highest;
    HighestFacts(run, prio);
    HighestFacts(expired, prio);
  }

  /** The middle of `_schedule`: removing the running thread finds its list. */
  lemma LeaveKeeps(q: Queue, sleeps: bool, idle: Thread, prio: Thread -> nat)
    requires Inv(q, idle, prio)
    ensures q.running != idle ==> Remove(q.run, q.running, prio(q.running)).Some?
    ensures Ordered(Active(q, idle, prio)) && AtHome(Active(q, idle, prio), prio)
    ensures Ordered(Expired(q, sleeps, idle, prio)) && AtHome(Expired(q, sleeps, idle, prio), prio)
    ensures q.running != idle ==> Queued(q.run) == Queued(Active(q, idle, prio)) + multiset{q.running}
    ensures q.running != idle && !sleeps ==>
      Queued(Expired(q, sleeps, idle, prio)) == Queued(q.expired) + multiset{q.running}
    ensures q.running != idle && After(q.run, q.running, prio(q.running)).Some? ==>
      var t := After(q.run, q.running, prio(q.running)).value;
      t in Queued(Active(q, idle, prio)) && IsHead(Active(q, idle, prio), t, prio(t))
  {
    hide Ordered, AtHome, IsHead, Queued, Add, After, Remove;
    if q.running != idle {
      var p := prio(q.running);
      RemoveHead(q.run, q.running, p, prio);
      AddOrdered(q.expired, q.running, p);
      AddAtHome(q.expired, q.running, p, prio);
      AddQueued(q.expired, q.running, p);
      if After(q.run, q.running, p).Some? {
        HeadQueued(Remove(q.run, q.running, p).value, After(q.run, q.running, p).value, p);
      }
    }
  }

  lemma SwitchLands(q: Queue, sleeps: bool, idle: Thread, prio: Thread -> nat)
    requires Inv(q, idle, prio)
    ensures Landed(Switch(q, sleeps, idle, prio), Active(q, idle, prio), Expired(q, sleeps, idle, prio), idle, prio)
  {
    hide Ordered, AtHome, IsHead, Queued, Add, After, Remove, Highest, PickNext, Members;
    LeaveKeeps(q, sleeps, idle, prio);
    PickNextLands(Active(q, idle, prio), Expired(q, sleeps, idle, prio), idle, q.recheck, prio);
    HighestFacts(Active(q, idle, prio), prio);
  }

  /** `_schedule` keeps the invariant; only a thread that was put to sleep leaves, and idle runs only if nothing is
      queued. */
  lemma SwitchKeeps(q: Queue, sleeps: bool, idle: Thread, prio: Thread -> nat)
    requires Inv(q, idle, prio)
    ensures Inv(Switch(q, sleeps, idle, prio), idle, prio)
    ensures Members(Switch(q, sleeps, idle, prio)) ==
      if sleeps && q.running != idle then Members(q) - multiset{q.running} else Members(q)
    ensures Switch(q, sleeps, idle, prio).running == idle <==> Members(Switch(q, sleeps, idle, prio)) == multiset{}
  {
    hide Ordered, AtHome, IsHead, Queued, Switch, Active, Expired;
    var q' := Switch(q, sleeps, idle, prio);
    LeaveKeeps(q, sleeps, idle, prio);
    SwitchLands(q, sleeps, idle, prio);
    StayOrLeave(q, sleeps, idle, prio);
    assert Members(q') == Queued(Active(q, idle, prio)) + Queued(Expired(q, sleeps, idle, prio));
    OnceLess(Members(q), q.running);
  }

  lemma StayOrLeave(q: Queue, sleeps: bool, idle: Thread, prio: Thread -> nat)
    requires Inv(q, idle, prio)
    ensures Queued(Active(q, idle, prio)) + Queued(Expired(q, sleeps, idle, prio)) ==
      if sleeps && q.running != idle then Members(q) - multiset{q.running} else Members(q)
  {
    hide Ordered, AtHome, IsHead, Queued, Remove, Add;
    LeaveKeeps(q, sleeps, idle, prio);
  }

  // ---------------------------------------------------------------- which thread is chosen

  /** The threads of priority `p`, in the order in which they wait. */
  function Line(ls: seq<RunList>, p: nat): seq<Thread> {
    if ls == [] then [] else if ls[0].priority == p then ls[0].threads else Line(ls[1..], p)
  }

  lemma {:induction false} NoLine(ls: seq<RunList>, p: nat)
    requires Ordered(ls) && (ls == [] || p < ls[0].priority)
    ensures Line(ls, p) == []
  {
    if ls != [] { NoLine(ls[1..], p); }
  }

  /** The line of a priority holds exactly the queued threads of that priority. */
  lemma {:induction false} LineQueued(ls: seq<RunList>, p: nat, t: Thread, prio: Thread -> nat)
    requires Ordered(ls) && AtHome(ls, prio)
    ensures multiset(Line(ls, p))[t] == if prio(t) == p then Queued(ls)[t] else 0
  {
    if ls != [] {
      AboveFirst(ls, prio);
      if ls[0].priority == p {
        assert t in ls[0].threads ==> prio(t) == p;
        assert t in Queued(ls[1..]) ==> p < prio(t);
      } else {
        LineQueued(ls[1..], p, t, prio);
        assert t in ls[0].threads ==> prio(t) != p;
      }
    }
  }

  lemma {:induction false} AddLine(ls: seq<RunList>, t: Thread, p: nat, r: nat)
    requires Ordered(ls)
    ensures Line(Add(ls, t, p), r) == Line(ls, r) + (if r == p then [t] else [])
  {
    AddParts(ls, t, p);
    hide Add;
    var ls' := Add(ls, t, p);
    if ls != [] && ls[0].priority < p {
      AddLine(ls[1..], t, p, r);
    } else if ls == [] || ls[0].priority > p {
      NoLine(ls, p);
      assert Line(ls', r) == if r == p then [t] else Line(ls'[1..], r);
    }
  }

  lemma {:induction false} HeadLine(ls: seq<RunList>, t: Thread, p: nat)
    ensures IsHead(ls, t, p) <==> Line(ls, p) != [] && Line(ls, p)[0] == t
    ensures IsHead(ls, t, p) ==> After(ls, t, p) == if |Line(ls, p)| > 1 then Some(Line(ls, p)[1]) else None
  {
    if ls != [] && ls[0].priority != p { HeadLine(ls[1..], t, p); }
  }

  lemma {:induction false} RemoveLine(ls: seq<RunList>, t: Thread, p: nat, r: nat)
    requires IsHead(ls, t, p)
    ensures Remove(ls, t, p).Some? && Line(ls, p) != []
    ensures Line(Remove(ls, t, p).value, r) == if r == p then Line(ls, p)[1..] else Line(ls, r)
  {
    if ls[0].priority != p {
      RemoveLine(ls[1..], t, p, r);
      assert Remove(ls, t, p).value[1..] == Remove(ls[1..], t, p).value;
    } else {
      assert Remove(ls, t, p).value[1..] == ls[1..];
    }
  }

  /** The last thread of a list is the last in line. */
  lemma {:induction false} LastInLine(ls: seq<RunList>, p: nat)
    requires Ordered(ls)
    ensures LastAt(ls, p) == if Line(ls, p) == [] then None else Some(Line(ls, p)[|Line(ls, p)| - 1])
  {
    if ls != [] && ls[0].priority > p {
      NoLine(ls, p);
    } else if ls != [] && ls[0].priority < p {
      LastInLine(ls[1..], p);
    }
  }

  /** Dropping a thread takes its first occurrence out and keeps the order of the others. */
  lemma {:induction false} DropFirst(ts: seq<Thread>, t: Thread, i: nat)
    requires i <= |ts| && (i < |ts| ==> ts[i] == t) && forall j :: 0 <= j < i ==> ts[j] != t
    ensures Drop(ts, t) == if i < |ts| then Dropped(ts, i) else ts
  {
    if i > 0 {
      DropFirst(ts[1..], t, i - 1);
      if i < |ts| {
        assert [ts[0]] + Dropped(ts[1..], i - 1) == Dropped(ts, i);
      } else {
        assert [ts[0]] + ts[1..] == ts;
      }
    }
  }

  /** Removing a thread changes the line of its priority alone, and fails only if there is no list for that priority. */
  lemma {:induction false} RemoveLines(ls: seq<RunList>, t: Thread, p: nat, r: nat)
    ensures Remove(ls, t, p).None? <==> forall i :: 0 <= i < |ls| ==> ls[i].priority != p
    ensures Remove(ls, t, p).Some? ==>
      Line(Remove(ls, t, p).value, r) == if r == p then Drop(Line(ls, p), t) else Line(ls, r)
  {
    if ls != [] {
      if ls[0].priority == p {
        assert Remove(ls, t, p).value[1..] == ls[1..];
      } else {
        RemoveLines(ls[1..], t, p, r);
        if Remove(ls, t, p).Some? { assert Remove(ls, t, p).value[1..] == Remove(ls[1..], t, p).value; }
        assert forall i :: 0 < i < |ls| ==> ls[i] == ls[1..][i - 1];
      }
    }
  }

  /** Of the queued threads `t` has the least priority number, and is the first in line of its priority. */
  ghost predicate Leads(ls: seq<RunList>, t: Thread, prio: Thread -> nat) {
    && t in Queued(ls) && (forall u :: u in Queued(ls) ==> prio(t) <= prio(u))
    && Line(ls, prio(t)) != [] && Line(ls, prio(t))[0] == t
  }

  lemma HighestLeads(ls: seq<RunList>, prio: Thread -> nat)
    requires Ordered(ls) && AtHome(ls, prio)
    ensures Highest(ls).None? <==> Queued(ls) == multiset{}
    ensures Highest(ls).Some? ==> Leads(ls, Highest(ls).value, prio)
  {
    hide Ordered, AtHome, IsHead, Queued, Highest, Line;
    HighestFacts(ls, prio);
    if Highest(ls).Some? { HeadLine(ls, Highest(ls).value, prio(Highest(ls).value)); }
  }

  /** The active threads of priority `r` without the running one. */
  ghost function Others(q: Queue, idle: Thread, prio: Thread -> nat, r: nat): seq<Thread> {
    var line := Line(q.run, r);
    if q.running != idle && r == prio(q.running) && line != [] then line[1..] else line
  }

  /** The expired threads of priority `r`, and behind them the running one unless it sleeps. */
  ghost function Expiring(q: Queue, sleeps: bool, idle: Thread, prio: Thread -> nat, r: nat): seq<Thread> {
    Line(q.expired, r) + if q.running != idle && !sleeps && r == prio(q.running) then [q.running] else []
  }

  ghost predicate HasSuccessor(q: Queue, idle: Thread, prio: Thread -> nat) {
    q.running != idle && |Line(q.run, prio(q.running))| > 1
  }

  /** What one call of `_schedule` does to the lines and which thread it chooses: the one behind the running thread, if
      there is one and nothing asks for a new look; else the leading one of the active threads, or of the expired ones
      if the active lists ran empty; idle only if there is none at all. */
  ghost predicate Chooses(q: Queue, q': Queue, sleeps: bool, idle: Thread, prio: Thread -> nat) {
    var swap := Queued(q.run) - multiset{q.running} == multiset{};
    && (forall r: nat :: Line(q'.run, r) ==
          if swap then Expiring(q, sleeps, idle, prio, r) else Others(q, idle, prio, r))
    && (forall r: nat :: Line(q'.expired, r) ==
          if swap then Others(q, idle, prio, r) else Expiring(q, sleeps, idle, prio, r))
    && (if HasSuccessor(q, idle, prio) && !q.recheck then q'.running == Line(q.run, prio(q.running))[1]
        else if Queued(q'.run) != multiset{} then Leads(q'.run, q'.running, prio)
        else q'.running == idle)
    && q'.recheck == (q.recheck && !HasSuccessor(q, idle, prio))
  }

  lemma LeaveLines(q: Queue, sleeps: bool, idle: Thread, prio: Thread -> nat)
    requires Inv(q, idle, prio)
    ensures forall r: nat :: Line(Active(q, idle, prio), r) == Others(q, idle, prio, r)
    ensures forall r: nat :: Line(Expired(q, sleeps, idle, prio), r) == Expiring(q, sleeps, idle, prio, r)
    ensures q.running != idle ==>
      After(q.run, q.running, prio(q.running)) ==
      if HasSuccessor(q, idle, prio) then Some(Line(q.run, prio(q.running))[1]) else None
    ensures Queued(Active(q, idle, prio)) == Queued(q.run) - multiset{q.running}
  {
    hide Ordered, AtHome, IsHead, Queued, Add, After, Remove, Line;
    LeaveKeeps(q, sleeps, idle, prio);
    if q.running != idle { HeadLine(q.run, q.running, prio(q.running)); }
    forall r: nat
      ensures Line(Active(q, idle, prio), r) == Others(q, idle, prio, r)
      ensures Line(Expired(q, sleeps, idle, prio), r) == Expiring(q, sleeps, idle, prio, r)
    {
      if q.running != idle {
        RemoveLine(q.run, q.running, prio(q.running), r);
        AddLine(q.expired, q.running, prio(q.running), r);
      }
    }
  }

  /** `_schedule` chooses as described, without a word about how. */
  lemma SwitchChooses(q: Queue, sleeps: bool, idle: Thread, prio: Thread -> nat)
    requires Inv(q, idle, prio)
    ensures Chooses(q, Switch(q, sleeps, idle, prio), sleeps, idle, prio)
  {
    hide Ordered, AtHome, IsHead, Queued, Add, After, Remove, Highest, Line, Leads, Others, Expiring, HasSuccessor,
      Members;
    LeaveKeeps(q, sleeps, idle, prio);
    LeaveLines(q, sleeps, idle, prio);
    HighestLeads(Active(q, idle, prio), prio);
    HighestLeads(Expired(q, sleeps, idle, prio), prio);
    SuccessorStays(q, idle, prio);
  }

  lemma SuccessorStays(q: Queue, idle: Thread, prio: Thread -> nat)
    requires Inv(q, idle, prio)
    ensures HasSuccessor(q, idle, prio) ==> q.running != idle && Queued(q.run) - multiset{q.running} != multiset{}
  {
    hide Ordered, AtHome, IsHead, Queued, Add, After, Remove, Line;
    LeaveLines(q, true, idle, prio);
    LeaveKeeps(q, true, idle, prio);
  }

  /** A new thread goes to the end of the line of its priority, and asks for a new look if its priority number is larger
      than that of the running thread. */
  lemma WakeLines(q: Queue, t: Thread, idle: Thread, prio: Thread -> nat)
    requires Inv(q, idle, prio)
    ensures var q' := Wake(q, t, prio);
      && (forall r: nat :: Line(q'.run, r) == Line(q.run, r) + (if r == prio(t) then [t] else []))
      && q'.expired == q.expired && q'.running == q.running
      && (q'.recheck <==> q.recheck || prio(t) > prio(q.running))
  {
    hide Ordered, AtHome, IsHead, Queued, Add, Line;
    forall r: nat ensures Line(Add(q.run, t, prio(t)), r) == Line(q.run, r) + (if r == prio(t) then [t] else []) {
      AddLine(q.run, t, prio(t), r);
    }
  }

  /** The chosen thread has the least priority number of its lists, if and only if the running thread has no successor,
      or a new look was asked for, or no active thread has a smaller number than the running one. */
  lemma LeastIff(q: Queue, sleeps: bool, idle: Thread, prio: Thread -> nat)
    requires Inv(q, idle, prio)
    ensures var q' := Switch(q, sleeps, idle, prio);
      (forall u :: u in Queued(q'.run) ==> prio(q'.running) <= prio(u)) <==>
      || !HasSuccessor(q, idle, prio) || q.recheck
      || forall u :: u in Queued(q.run) ==> prio(q.running) <= prio(u)
  {
    hide Ordered, AtHome, IsHead, Queued, Add, Remove, Highest, Line, Others, Expiring, Switch, Members;
    var q' := Switch(q, sleeps, idle, prio);
    SwitchChooses(q, sleeps, idle, prio);
    SwitchLands(q, sleeps, idle, prio);
    LeaveKeeps(q, sleeps, idle, prio);
    LeaveLines(q, sleeps, idle, prio);
    SuccessorStays(q, idle, prio);
    if HasSuccessor(q, idle, prio) {
      SamePriority(q, idle, prio);
      assert q'.run == Active(q, idle, prio);
      assert Queued(q.run) == Queued(q'.run) + multiset{q.running};
    }
  }

  lemma SamePriority(q: Queue, idle: Thread, prio: Thread -> nat)
    requires Inv(q, idle, prio) && HasSuccessor(q, idle, prio)
    ensures prio(Line(q.run, prio(q.running))[1]) == prio(q.running)
  {
    hide Ordered, AtHome, IsHead, Queued, Line;
    var p := prio(q.running);
    var t := Line(q.run, p)[1];
    assert t in multiset(Line(q.run, p));
    LineQueued(q.run, p, t, prio);
  }

  /** A thread with a smaller number, added while another one runs that has a successor, has to wait behind it. */
  lemma SmallerNumberWaits(prio: Thread -> nat)
    requires prio(20) == 0 && prio(10) == prio(11) == 1
    ensures var q := Queue([RunList(1, [10, 11])], [], 10, false);
      && Inv(q, 9, prio) && 20 in Queued(Wake(q, 20, prio).run)
      && Switch(Wake(q, 20, prio), false, 9, prio).running == 11
  {
    hide Queued, Switch, Wake, Inv, Line;
    var q := Queue([RunList(1, [10, 11])], [], 10, false);
    TwoThreads(prio);
    WakeKeeps(q, 20, 9, prio);
    WakeLines(q, 20, 9, prio);
    assert 20 in Members(Wake(q, 20, prio));
    SwitchChooses(Wake(q, 20, prio), false, 9, prio);
  }

  lemma TwoThreads(prio: Thread -> nat)
    requires prio(10) == prio(11) == 1
    ensures var q := Queue([RunList(1, [10, 11])], [], 10, false);
      && Inv(q, 9, prio) && Members(q) == multiset{10, 11} && Queued(q.expired) == multiset{}
      && Line(q.run, 1) == [10, 11]
  {
    var q := Queue([RunList(1, [10, 11])], [], 10, false);
    assert q.run[1..] == [];
    assert Queued(q.run) == multiset([10, 11]) + Queued([]);
    assert Members(q) == multiset{10, 11};
  }

  // ---------------------------------------------------------------- runs

  datatype Event = Woken(t: Thread) | Scheduled(sleeps: bool)

  function Apply(q: Queue, e: Event, idle: Thread, prio: Thread -> nat): Queue {
    match e
    case Woken(t) => Wake(q, t, prio)
    case Scheduled(sleeps) => Switch(q, sleeps, idle, prio)
  }

  /** Only threads that are not queued are added. */
  ghost predicate Legal(q: Queue, e: Event, idle: Thread) {
    e.Woken? ==> e.t !in Members(q) && e.t != idle
  }

  function Later(q: Queue, events: seq<Event>, idle: Thread, prio: Thread -> nat): Queue
    decreases |events|
  {
    if events == [] then q else Later(Apply(q, events[0], idle, prio), events[1..], idle, prio)
  }

  ghost predicate LegalRun(q: Queue, events: seq<Event>, idle: Thread, prio: Thread -> nat)
    decreases |events|
  {
    events == [] || (Legal(q, events[0], idle) && LegalRun(Apply(q, events[0], idle, prio), events[1..], idle, prio))
  }

  /** Safety over whole runs. */
  lemma {:induction false} RunsKeepInv(q: Queue, events: seq<Event>, idle: Thread, prio: Thread -> nat)
    requires Inv(q, idle, prio) && LegalRun(q, events, idle, prio)
    ensures Inv(Later(q, events, idle, prio), idle, prio)
    decreases |events|
  {
    hide Inv, Members, Switch, Wake;
    if events != [] {
      ApplyKeeps(q, events[0], idle, prio);
      RunsKeepInv(Apply(q, events[0], idle, prio), events[1..], idle, prio);
    }
  }

  lemma ApplyKeeps(q: Queue, e: Event, idle: Thread, prio: Thread -> nat)
    requires Inv(q, idle, prio) && Legal(q, e, idle)
    ensures Inv(Apply(q, e, idle, prio), idle, prio)
  {
    hide Inv, Members, Switch, Wake;
    match e {
      case Woken(t) => WakeKeeps(q, t, idle, prio);
      case Scheduled(sleeps) => SwitchKeeps(q, sleeps, idle, prio);
    }
  }

  // ---------------------------------------------------------------- bounded waiting

  /** An upper bound on the `_schedule` calls until `t` runs. */
  ghost function Wait(q: Queue, t: Thread, idle: Thread): int {
    |Queued(q.run)| - (if q.running == idle then 0 else 1) + (if t in Queued(q.run) then 0 else |Members(q)|)
  }

  lemma WaitBounds(q: Queue, t: Thread, idle: Thread, prio: Thread -> nat)
    requires Inv(q, idle, prio) && t in Members(q) && t != q.running
    ensures 1 <= Wait(q, t, idle) <= 2 * |Members(q)| - 1
  {
    hide Queued, IsHead, Ordered, AtHome;
    if q.running != idle {
      HeadQueued(q.run, q.running, prio(q.running));
      if t in Queued(q.run) { AtLeast(Queued(q.run), multiset{t, q.running}); }
    }
    if t in Queued(q.run) {
      AtLeast(Queued(q.run), multiset{t});
    } else {
      AtLeast(Queued(q.expired), multiset{t});
    }
  }

  lemma AtLeast(m: multiset<Thread>, part: multiset<Thread>)
    requires part <= m
    ensures |part| <= |m|
  {
    assert m == part + (m - part);
  }

  /** Each call brings every waiting thread closer. */
  lemma SwitchWait(q: Queue, sleeps: bool, t: Thread, idle: Thread, prio: Thread -> nat)
    requires Inv(q, idle, prio) && t in Members(q) && t != q.running
    ensures var q' := Switch(q, sleeps, idle, prio);
      q'.running == t || (t in Members(q') && Wait(q', t, idle) < Wait(q, t, idle))
  {
    hide Queued, IsHead, Ordered, AtHome, Switch, Active, Expired;
    var q' := Switch(q, sleeps, idle, prio);
    SwitchKeeps(q, sleeps, idle, prio);
    SwitchLands(q, sleeps, idle, prio);
    LeaveKeeps(q, sleeps, idle, prio);
    StayOrLeave(q, sleeps, idle, prio);
    assert q.running == idle ==> Active(q, idle, prio) == q.run by { IdleStays(q, idle, prio); }
  }

  lemma IdleStays(q: Queue, idle: Thread, prio: Thread -> nat)
    ensures q.running == idle ==> Active(q, idle, prio) == q.run
  {
  }

  /** Without wake-ups every queued thread runs within `Wait` calls of `_schedule`. */
  lemma {:induction false} RunsSoon(q: Queue, t: Thread, events: seq<Event>, idle: Thread, prio: Thread -> nat)
    returns (k: nat)
    requires Inv(q, idle, prio) && t in Members(q) && (t == q.running || Wait(q, t, idle) <= |events|)
    requires forall i :: 0 <= i < |events| ==> events[i].Scheduled?
    ensures k <= |events| && Later(q, events[..k], idle, prio).running == t
    decreases |events|
  {
    hide Inv, Members, Switch, Wake, Wait;
    if t == q.running {
      k := 0;
    } else {
      WaitBounds(q, t, idle, prio);
      var q' := Apply(q, events[0], idle, prio);
      SwitchKeeps(q, events[0].sleeps, idle, prio);
      SwitchWait(q, events[0].sleeps, t, idle, prio);
      if q'.running == t {
        k := 1;
        assert events[..1][1..] == [];
      } else {
        k := RunsSoon(q', t, events[1..], idle, prio);
        assert events[..k + 1][1..] == events[1..][..k];
        k := k + 1;
      }
    }
  }

  /** With N queued threads every one of them runs within 2N calls. */
  lemma BoundedWait(q: Queue, t: Thread, events: seq<Event>, idle: Thread, prio: Thread -> nat)
    requires Inv(q, idle, prio) && t in Members(q) && |events| >= 2 * |Members(q)|
    requires forall i :: 0 <= i < |events| ==> events[i].Scheduled?
    ensures exists k: nat :: k <= 2 * |Members(q)| && Later(q, events[..k], idle, prio).running == t
  {
    hide Inv, Members, Wait, Later;
    if t != q.running { WaitBounds(q, t, idle, prio); }
    var n := 2 * |Members(q)|;
    var k := RunsSoon(q, t, events[..n], idle, prio);
    assert events[..n][..k] == events[..k];
  }

  // ---------------------------------------------------------------- between two swaps

  /** The step empties the active lists, so that they are swapped. */
  ghost predicate Swaps(q: Queue, e: Event, idle: Thread, prio: Thread -> nat) {
    e.Scheduled? && Queued(Active(q, idle, prio)) == multiset{}
  }

  /** No step before the last one swaps the lists; the last one does. */
  ghost predicate Epoch(q: Queue, events: seq<Event>, idle: Thread, prio: Thread -> nat)
    decreases |events|
  {
    && events != []
    && if |events| == 1 then Swaps(q, events[0], idle, prio)
       else !Swaps(q, events[0], idle, prio) && Epoch(Apply(q, events[0], idle, prio), events[1..], idle, prio)
  }

  /** The threads that were running when `_schedule` was called, except idle. */
  ghost function Ran(q: Queue, events: seq<Event>, idle: Thread, prio: Thread -> nat): multiset<Thread>
    decreases |events|
  {
    if events == [] then multiset{}
    else (if events[0].Scheduled? && q.running != idle then multiset{q.running} else multiset{})
         + Ran(Apply(q, events[0], idle, prio), events[1..], idle, prio)
  }

  ghost function Added(events: seq<Event>): multiset<Thread> {
    if events == [] then multiset{}
      else (if events[0].Woken? then multiset{events[0].t} else multiset{}) + Added(events[1..])
  }

  lemma StepInEpoch(q: Queue, e: Event, idle: Thread, prio: Thread -> nat)
    requires Inv(q, idle, prio) && Legal(q, e, idle)
    ensures e.Woken? ==>
      !Swaps(q, e, idle, prio) && Queued(Apply(q, e, idle, prio).run) == Queued(q.run) + multiset{e.t}
    ensures e.Scheduled? && q.running != idle ==>
      Queued(q.run) == multiset{q.running} + (if Swaps(q, e, idle, prio) then multiset{}
        else Queued(Apply(q, e, idle, prio).run))
    ensures e.Scheduled? && q.running == idle ==>
      Queued(q.run) == if Swaps(q, e, idle, prio) then multiset{} else Queued(Apply(q, e, idle, prio).run)
  {
    hide Queued, IsHead, Ordered, AtHome, Switch, Add, Active, Expired;
    match e {
      case Woken(t) => AddQueued(q.run, t, prio(t));
      case Scheduled(sleeps) =>
        LeaveKeeps(q, sleeps, idle, prio);
        SwitchLands(q, sleeps, idle, prio);
        IdleStays(q, idle, prio);
    }
  }

  lemma JoinRuns(before: multiset<Thread>, after: multiset<Thread>, ran: multiset<Thread>, added: multiset<Thread>,
                 now: multiset<Thread>, more: multiset<Thread>)
    requires ran == after + added && before + more == now + after
    ensures now + ran == before + (more + added)
  {
    assert now + ran == (now + after) + added;
  }

  /** Between two swaps the threads of the active lists, and those added meanwhile, each run exactly once. */
  lemma {:induction false} EachRunsOnce(q: Queue, events: seq<Event>, idle: Thread, prio: Thread -> nat)
    requires Inv(q, idle, prio) && LegalRun(q, events, idle, prio) && Epoch(q, events, idle, prio)
    ensures Ran(q, events, idle, prio) == Queued(q.run) + Added(events)
    decreases |events|
  {
    hide Inv, Members, Apply, Queued, Swaps, Legal;
    StepInEpoch(q, events[0], idle, prio);
    ApplyKeeps(q, events[0], idle, prio);
    var q', rest := Apply(q, events[0], idle, prio), events[1..];
    var now := if events[0].Scheduled? && q.running != idle then multiset{q.running} else multiset{};
    var more := if events[0].Woken? then multiset{events[0].t} else multiset{};
    if |events| > 1 {
      EachRunsOnce(q', rest, idle, prio);
      JoinRuns(Queued(q.run), Queued(q'.run), Ran(q', rest, idle, prio), Added(rest), now, more);
    } else {
      assert rest == [] && Ran(q', rest, idle, prio) == multiset{} && Added(rest) == multiset{};
      assert Queued(q.run) == now && more == multiset{};
    }
  }
}
