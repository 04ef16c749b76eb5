/** The expiration service is never stuck: in every reachable state the scheduler,
    each busy worker and the store's writer have a step to take, unless they wait
    for what the code makes them wait for. */
module Progress {
  import opened Options
  import opened ExpirationLog
  import opened ExpirationStore
  import opened TaskGroups
  import opened ExpirationQueue
  import opened ExpirationSystem
  import opened ExpirationSafety
  import WB = WriteBehind

  // ---------- A take always exists ----------

  lemma {:induction false} EarliestExists(heap: multiset<Task>) returns (t: Task)
    requires heap != multiset{}
    ensures IsNext(t, heap)
    decreases |heap|
  {
    var x :| x in heap;
    var rest := heap - multiset{x};
    t := x;
    if rest != multiset{} {
      var y := EarliestExists(rest);
      if y.expireAt < x.expireAt {
        t := y;
      }
    }
    forall z | z in heap
      ensures t.expireAt <= z.expireAt
    {
      assert z == x || z in rest;
    }
  }

  lemma {:induction false} TakeExists(was: multiset<Task>, now: int, limit: nat, tasks: seq<Task>, rest: multiset<Task>)
      returns (tasks': seq<Task>, rest': multiset<Task>)
    requires Taking(was, now, limit, tasks, rest)
    ensures TakesDue(was, now, limit, tasks', rest')
    decreases |rest|
  {
    tasks', rest' := tasks, rest;
    if |tasks| < limit && rest != multiset{} {
      var t := EarliestExists(rest);
      if t.expireAt <= now {
        TakeOne(was, now, limit, tasks, rest, t);
        tasks', rest' := TakeExists(was, now, limit, tasks + [t], rest - multiset{t});
      } else {
        NextIsLater(t, rest, now);
      }
    }
  }

  lemma {:induction false} SequenceOf(keys: set<string>) returns (r: seq<string>)
    ensures Distinct(r) && forall k :: k in r <==> k in keys
    decreases |keys|
  {
    r := [];
    if keys != {} {
      var k :| k in keys;
      var rest := SequenceOf(keys - {k});
      r := rest + [k];
    }
  }

  lemma GroupingExists(tasks: seq<Task>) returns (keys: seq<string>, groups: seq<seq<Task>>)
    ensures Grouping(tasks, keys, groups)
  {
    keys := SequenceOf(set t | t in tasks :: GroupKey(t));
    groups := seq(|keys|, i requires 0 <= i < |keys| => InGroup(tasks, keys[i]));
  }

  // ---------- The scheduler ----------

  /** What the scheduler waits for: a free worker while it has a group to hand
      over, or the wake channel or its timer while it sleeps. */
  predicate SchedulerWaits(s: Sys) {
    || (s.sched.Dispatching? && s.sched.groups != [] && forall w | 0 <= w < |s.workers| :: !s.workers[w].Idle?)
    || (s.sched.Waiting? && !s.wake && (s.sched.due.Some? ==> s.now < Fires(s.sched)))
  }

  /** Having read the clock, it can take what is due, or else go to sleep. */
  lemma CapturedCanStep(s: Sys) returns (a: Action)
    requires s.sched.Captured?
    ensures Schedules(a) && CanSchedule(s, a)
  {
    assert multiset([]) + s.heap == s.heap;
    var tasks, rest := TakeExists(s.heap, s.sched.at, BATCH_SIZE, [], s.heap);
    if tasks != [] {
      var keys, groups := GroupingExists(tasks);
      a := Take(tasks, rest, keys, groups);
    } else {
      assert rest == s.heap;
      if s.heap == multiset{} {
        a := Sleep(None);
      } else {
        var t := EarliestExists(s.heap);
        a := Sleep(Some(t));
      }
    }
  }

  /** The scheduler has a step exactly when it does not wait. Only a failure to
      hand over can end a wait for a worker. */
  lemma {:induction false} SchedulerCanStep(s: Sys)
    ensures (exists a :: Schedules(a) && !a.DispatchFails? && Enabled(s, a)) <==> !SchedulerWaits(s)
  {
    if !SchedulerWaits(s) {
      var a := SomeScheduleStep(s);
      assert Enabled(s, a);
    }
  }

  lemma SomeScheduleStep(s: Sys) returns (a: Action)
    requires !SchedulerWaits(s)
    ensures Schedules(a) && !a.DispatchFails? && CanSchedule(s, a)
  {
    match s.sched
    case Ready => a := Capture;
    case Captured(_) =>
      a := CapturedCanStep(s);
      assert !a.DispatchFails?;
    case Dispatching(_, groups) =>
      if groups == [] {
        a := DispatchEnds;
      } else {
        var w :| 0 <= w < |s.workers| && s.workers[w].Idle?;
        a := Dispatch(0, w);
      }
    case Parked(_, _) => a := Arm;
    case Waiting(_, _, _) => a := if s.wake then WakeUp else Timer;
  }

  // ---------- The workers and the writer ----------

  /** A worker waits only to report to a store whose channel is full. */
  predicate WorkerWaits(s: Sys, w: nat)
    requires w < |s.workers|
  {
    && s.workers[w].Completing? && s.workers[w].tasks != [] && Acceptable(s.workers[w].tasks)
    && !s.run.s.closed && |s.run.s.ch| >= 256
  }

  /** The step a worker takes next, given what S3 answers. */
  function NextWork(s: Sys, w: nat, response: Response): Action
    requires w < |s.workers|
  {
    match s.workers[w]
    case Started(_, _) => ReadSetting(w)
    case Configured(_, _, _, _) => ReadClient(w)
    case Connected(_, _, _, _, _, _) => DeleteObjects(w, response)
    case Completing(_, tasks) =>
      if tasks != [] && (s.run.s.closed || !Acceptable(tasks)) then CompleteRefused(w) else Complete(w)
    case Idle => Complete(w)
  }

  /** A busy worker has a step exactly when it does not wait, whatever S3
      answers. */
  lemma {:induction false} WorkerCanStep(s: Sys, w: nat, response: Response)
    requires w < |s.workers| && !s.workers[w].Idle?
    ensures Enabled(s, NextWork(s, w, response)) <==> !WorkerWaits(s, w)
  {
  }

  /** What the writer can do: receive what is queued, tick, and drain once the
      channel is closed and empty. */
  ghost predicate WriterMoves(s: Sys, txOk: bool, syncOk: bool) {
    && (!s.run.s.done && s.run.s.ch != [] ==> Enabled(s, Writer(WB.Receive(txOk))))
    && (!s.run.s.done ==> Enabled(s, Writer(WB.Tick(txOk, syncOk))))
    && (!s.run.s.done && s.run.s.closed && s.run.s.ch == [] ==> Enabled(s, Writer(WB.Drain(txOk, syncOk))))
  }

  lemma WriterSteps(s: Sys, txOk: bool, syncOk: bool)
    ensures WriterMoves(s, txOk, syncOk)
  {
  }

  lemma CrashIsPossible(s: Sys)
    requires WB.Inv(s.run)
    ensures Enabled(s, Restart(s.run.committed, false)) && Enabled(s, Restart(s.run.synced, true))
  {
    hide WB.At;
  }

  /** In every reachable state the writer can go on until it is done, and a process
      that dies or loses power can start again. */
  lemma {:induction false} WriterCanStep(base: Db, now: int, actions: seq<Action>, txOk: bool, syncOk: bool)
    requires Keyed(base) && Executable(InitialSys(base, now), actions)
    ensures var s := Execute(InitialSys(base, now), actions);
            && WriterMoves(s, txOk, syncOk)
            && Enabled(s, Restart(s.run.committed, false)) && Enabled(s, Restart(s.run.synced, true))
  {
    hide Executable, Execute, Enabled, WriterMoves, InitialSys, WB.Inv;
    ReachableSysInv(base, now, actions);
    WriterSteps(Execute(InitialSys(base, now), actions), txOk, syncOk);
    CrashIsPossible(Execute(InitialSys(base, now), actions));
  }
}
