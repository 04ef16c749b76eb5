/** What holds in every state the expiration service can reach. */
module ExpirationSafety {
  import opened Options
  import opened StorageTarget
  import opened NulKeys
  import opened ExpirationLog
  import opened TaskGroups
  import opened ExpirationQueue
  import opened ExpirationSystem
  import opened NoLostTasks
  import opened WakeUps
  import opened Justifications
  import WB = WriteBehind

  ghost predicate SysInv(s: Sys) {
    && WB.Inv(s.run) && Keyed(s.run.base)
    && Accounted(s) && RecordsTracked(s) && NoLostWakeUp(s) && ClockOk(s) && Justified(LedgerOf(s))
  }

  lemma InitialIsAccounted(base: Db, now: int)
    ensures Accounted(InitialSys(base, now)) && RecordsTracked(InitialSys(base, now))
  {
    var s := InitialSys(base, now);
    forall t
      ensures InFlight(s, t) == s.heap[t] == s.pushed[t] && s.done[t] == 0
    {
      BootHoldsOnlyTheHeap(WB.Initial(base), now, map[], map[], s.hist, [], t);
    }
    assert Recorded(s) == base;
    assert forall k | k in base :: base[k] in base.Values;
  }

  lemma InitialIsJustified(base: Db, now: int)
    ensures Justified(LedgerOf(InitialSys(base, now)))
  {
  }

  lemma InitialSysInv(base: Db, now: int)
    requires Keyed(base)
    ensures SysInv(InitialSys(base, now))
  {
    hide WB.Inv, Accounted, RecordsTracked, Justified;
    WB.InitialInv(base);
    InitialIsAccounted(base, now);
    InitialIsJustified(base, now);
  }

  lemma StepKeepsStoreInv(s: Sys, a: Action)
    requires WB.Inv(s.run) && Enabled(s, a)
    ensures WB.Inv(Next(s, a).run) && Next(s, a).run.base == s.run.base
  {
    hide Enabled, Next, WB.Inv, WB.Next, WB.Enabled;
    StoreStep(s, a);
    var r := Next(s, a).run;
    if r != s.run {
      var wa :| WB.Enabled(s.run, wa) && r == WB.Next(s.run, wa);
      WB.StepKeepsInv(s.run, wa);
      WB.StepKeepsBase(s.run, wa);
    }
  }

  ghost predicate IsStoreStep(r: WB.Run, r': WB.Run) {
    r' == r || exists wa :: WB.Enabled(r, wa) && r' == WB.Next(r, wa)
  }

  lemma SaveIsStoreStep(s: Sys, tasks: seq<Task>)
    requires Enabled(s, Save(tasks))
    ensures IsStoreStep(s.run, Next(s, Save(tasks)).run)
  {
    hide WB.Enabled, WB.Next;
    assert WB.Enabled(s.run, WB.Submit(Put, tasks));
  }

  lemma CompleteIsStoreStep(s: Sys, w: nat)
    requires Enabled(s, Complete(w))
    ensures IsStoreStep(s.run, Next(s, Complete(w)).run)
  {
    hide WB.Enabled, WB.Next;
    assert s.workers[w].tasks == [] || WB.Enabled(s.run, WB.Submit(Delete, s.workers[w].tasks));
  }

  lemma RestartIsStoreStep(s: Sys, cut: nat, powerLoss: bool)
    requires Enabled(s, Restart(cut, powerLoss))
    ensures IsStoreStep(s.run, Next(s, Restart(cut, powerLoss)).run)
  {
    hide WB.Enabled, WB.Next;
    assert WB.Enabled(s.run, WB.Crash(cut, powerLoss));
  }

  /** Seen from the store, every step is a step of the store or none. */
  lemma StoreStep(s: Sys, a: Action)
    requires Enabled(s, a)
    ensures IsStoreStep(s.run, Next(s, a).run)
  {
    hide Enabled, Next, WB.Enabled, WB.Next;
    if a.Save? {
      SaveIsStoreStep(s, a.saved);
    } else if a.Complete? {
      CompleteIsStoreStep(s, a.w);
    } else if a.Writer? {
      WriterStep(s, a.a);
    } else if a.Restart? {
      RestartIsStoreStep(s, a.cut, a.powerLoss);
    } else {
      OthersLeaveStoreAlone(s, a);
    }
  }

  lemma StepKeepsSysInv(s: Sys, a: Action)
    requires SysInv(s) && Enabled(s, a)
    ensures SysInv(Next(s, a)) && Next(s, a).run.base == s.run.base
  {
    hide Enabled, Next, WB.Inv, Accounted, RecordsTracked, NoLostWakeUp, ClockOk, Justified;
    StepKeepsStoreInv(s, a);
    StepKeepsAccounted(s, a);
    StepKeepsTracked(s, a);
    StepKeepsWakeUp(s, a);
    StepKeepsClock(s, a);
    StepKeepsJustified(s, a);
  }

  lemma {:induction false} RunKeepsSysInv(s: Sys, actions: seq<Action>)
    requires SysInv(s) && Executable(s, actions)
    ensures SysInv(Execute(s, actions))
    ensures Execute(s, actions).run.base == s.run.base
  {
    hide Enabled, Next, SysInv;
    if actions != [] {
      RunKeepsSysInv(s, actions[..|actions| - 1]);
      StepKeepsSysInv(Execute(s, actions[..|actions| - 1]), actions[|actions| - 1]);
    }
  }

  lemma ReachableSysInv(base: Db, now: int, actions: seq<Action>)
    requires Keyed(base) && Executable(InitialSys(base, now), actions)
    ensures SysInv(Execute(InitialSys(base, now), actions))
    ensures Execute(InitialSys(base, now), actions).run.base == base
  {
    hide SysInv, Executable, Execute;
    InitialSysInv(base, now);
    RunKeepsSysInv(InitialSys(base, now), actions);
  }

  lemma LatestPutIsTracked(s: Sys, k: string, t: Task)
    requires RecordsTracked(s)
    requires LatestEvent(Flatten(s.run.log), k) == Some(Event(Put, t)) ||
             (LatestEvent(Flatten(s.run.log), k) == None && k in s.run.base && s.run.base[k] == t)
    ensures Tracked(s, t)
  {
    LatestEventWins(s.run.base, Flatten(s.run.log), k, t);
    assert k in Recorded(s) && Recorded(s)[k] == t;
  }

  lemma KeyedValues(db: Db, t: Task)
    requires Keyed(db)
    ensures multiset(db.Values)[t] == if TaskKey(t) in db && db[TaskKey(t)] == t then 1 else 0
  {
    assert t in db.Values <==> TaskKey(t) in db && db[TaskKey(t)] == t;
  }

  /** What a restart loads: the records after a whole number of batches, between
      the synced and the committed ones, each of them once. */
  ghost predicate LoadsRecords(s: Sys, s': Sys, cut: nat) {
    && cut <= |s.run.log|
    && s'.run.s.db == Apply(s.run.base, Flatten(s.run.log[..cut]))
    && s.run.synced <= cut <= s.run.committed
    && (forall t :: s'.heap[t] == if TaskKey(t) in s'.run.s.db && s'.run.s.db[TaskKey(t)] == t then 1 else 0)
    && (forall t :: InFlight(s', t) == s'.heap[t])
  }

  lemma RestartedRecords(s: Sys, cut: nat, powerLoss: bool)
    requires WB.Inv(s.run) && Enabled(s, Restart(cut, powerLoss))
    ensures cut <= |s.run.log| && s.run.synced <= cut <= s.run.committed
    ensures var s' := Next(s, Restart(cut, powerLoss));
            && s'.run.s.db == Apply(s.run.base, Flatten(s.run.log[..cut]))
            && s'.heap == multiset(s'.run.s.db.Values)
  {
  }

  lemma RestartLoads(s: Sys, cut: nat, powerLoss: bool)
    requires WB.Inv(s.run) && Keyed(s.run.base) && Enabled(s, Restart(cut, powerLoss))
    ensures LoadsRecords(s, Next(s, Restart(cut, powerLoss)), cut)
  {
    hide Enabled, Next, InFlight, WB.Inv;
    var s' := Next(s, Restart(cut, powerLoss));
    RestartedRecords(s, cut, powerLoss);
    ApplyKeepsKeyed(s.run.base, Flatten(s.run.log[..cut]));
    forall t
      ensures s'.heap[t] == if TaskKey(t) in s'.run.s.db && s'.run.s.db[TaskKey(t)] == t then 1 else 0
      ensures InFlight(s', t) == s'.heap[t]
    {
      KeyedValues(s'.run.s.db, t);
      RestartCounts(s, cut, powerLoss, t);
    }
  }

  /** No recorded task is lost. In any interleaving, if the latest accepted event
      of a key is the put of t, or it has none and t was recorded when the run
      began, then someone still has t. */
  lemma {:induction false} NoRecordedTaskIsLost(base: Db, now: int, actions: seq<Action>, k: string, t: Task)
    requires Keyed(base) && Executable(InitialSys(base, now), actions)
    requires var events := Flatten(Execute(InitialSys(base, now), actions).run.log);
             || LatestEvent(events, k) == Some(Event(Put, t))
             || (LatestEvent(events, k) == None && k in base && base[k] == t)
    ensures Tracked(Execute(InitialSys(base, now), actions), t)
  {
    ReachableSysInv(base, now, actions);
    LatestPutIsTracked(Execute(InitialSys(base, now), actions), k, t);
  }

  /** The same by objects: if task t was put, and no later event is for the same
      object of the same bucket and host, then someone still has t. Events for other
      objects do not matter. */
  lemma {:induction false} NoCachedObjectIsForgotten(base: Db, now: int, actions: seq<Action>, i: nat)
    requires Keyed(base) && Executable(InitialSys(base, now), actions)
    requires var events := Flatten(Execute(InitialSys(base, now), actions).run.log);
             && i < |events| && events[i].op.Put? && NulFreeTargets(events)
             && forall j | i < j < |events| ::
                  !(events[j].task.host == events[i].task.host && events[j].task.bucket == events[i].task.bucket &&
                    events[j].task.key == events[i].task.key)
    ensures var s := Execute(InitialSys(base, now), actions);
            var t := Flatten(s.run.log)[i].task;
            && TaskKey(t) in Recorded(s) && Recorded(s)[TaskKey(t)] == t
            && Tracked(s, t)
  {
    var s := Execute(InitialSys(base, now), actions);
    var events := Flatten(s.run.log);
    LastEventOfObjectStands(s.run.base, events, i);
    NoRecordedTaskIsLost(base, now, actions, TaskKey(events[i].task), events[i].task);
  }

  /** A restart loads the heap with exactly the recovered records, each once,
      those of abandoned tasks included; everything else starts empty. */
  lemma {:induction false} RestartLoadsExactlyTheRecords(base: Db, now: int, actions: seq<Action>, cut: nat,
      powerLoss: bool)
    requires Keyed(base) && Executable(InitialSys(base, now), actions)
    requires Enabled(Execute(InitialSys(base, now), actions), Restart(cut, powerLoss))
    ensures var s := Execute(InitialSys(base, now), actions);
            LoadsRecords(s, Next(s, Restart(cut, powerLoss)), cut)
  {
    ReachableSysInv(base, now, actions);
    RestartLoads(Execute(InitialSys(base, now), actions), cut, powerLoss);
  }

  /** The sleeping scheduler, over every run. */
  lemma {:induction false} NoWakeUpIsLost(base: Db, now: int, actions: seq<Action>)
    requires Keyed(base) && Executable(InitialSys(base, now), actions)
    ensures NoLostWakeUp(Execute(InitialSys(base, now), actions)) && ClockOk(Execute(InitialSys(base, now), actions))
  {
    ReachableSysInv(base, now, actions);
  }

  /** Every accepted batch of deletions, over every run and whatever happens to
      settings and clients, is the report of one job, and no two batches are of
      the same one. Each of its tasks was deleted by that job: due when taken, and
      found stale by the job's own comparison or deleted without error by its own
      request. */
  lemma {:induction false} EveryDeletionIsJustified(base: Db, now: int, actions: seq<Action>, i: nat, e: Event)
    requires Keyed(base) && Executable(InitialSys(base, now), actions)
    requires i < |Execute(InitialSys(base, now), actions).run.log|
    requires e in Execute(InitialSys(base, now), actions).run.log[i] && e.op.Delete?
    ensures var s := Execute(InitialSys(base, now), actions);
            && |s.causes| == |s.run.log| && s.causes[i].Some? && s.causes[i].value < |s.hist.jobs|
            && s.run.log[i] == Events(Delete, CompletedBy(s.hist.jobs[s.causes[i].value]))
            && DeletedBy(s.hist, s.hist.jobs[s.causes[i].value], e.task)
            && s.hist.takes[s.hist.jobs[s.causes[i].value].take].at <= s.now
            && forall k | 0 <= k < |s.causes| && k != i :: s.causes[k] != s.causes[i]
  {
    ReachableSysInv(base, now, actions);
    JustifiedBatch(Execute(InitialSys(base, now), actions), i, e);
  }

  lemma JustifiedBatch(s: Sys, i: nat, e: Event)
    requires Justified(LedgerOf(s)) && i < |s.run.log| && e in s.run.log[i] && e.op.Delete?
    ensures |s.causes| == |s.run.log| && s.causes[i].Some? && s.causes[i].value < |s.hist.jobs|
    ensures s.run.log[i] == Events(Delete, CompletedBy(s.hist.jobs[s.causes[i].value]))
    ensures DeletedBy(s.hist, s.hist.jobs[s.causes[i].value], e.task)
    ensures forall k | 0 <= k < |s.causes| && k != i :: s.causes[k] != s.causes[i]
  {
    var l := LedgerOf(s);
    assert Caused(l.hist, l.causes[i], l.log[i]);
    var j := s.causes[i].value;
    assert e.task in CompletedBy(s.hist.jobs[j]);
    CompletedTaskIsDeletedBy(s.hist, j, e.task);
  }

  /** Every request ever made, over every run: its client fingerprint and bucket
      are those recorded in each of its tasks, and it has at most 1000 objects. */
  lemma {:induction false} EveryRequestIsOnTarget(base: Db, now: int, actions: seq<Action>, j: nat)
    requires Keyed(base) && Executable(InitialSys(base, now), actions)
    requires j < |Execute(InitialSys(base, now), actions).hist.jobs|
    ensures var o := OutcomeOf(Execute(InitialSys(base, now), actions).hist.jobs[j]);
            o.Processed? && o.request.Some? ==> OnTarget(o.request.value) && |o.request.value.objects| <= 1000
  {
    ReachableSysInv(base, now, actions);
    RequestOfJobIsOnTarget(Execute(InitialSys(base, now), actions).hist, j);
  }

  lemma {:induction false} RunKeepsWorkerCount(s: Sys, actions: seq<Action>)
    requires |s.workers| == WORKERS && Executable(s, actions)
    ensures |Execute(s, actions).workers| == WORKERS
  {
    if actions != [] {
      hide Enabled, Next;
      RunKeepsWorkerCount(s, actions[..|actions| - 1]);
      StepKeepsWorkerCount(Execute(s, actions[..|actions| - 1]), actions[|actions| - 1]);
    }
  }

  lemma ScheduleKeepsWorkerCount(s: Sys, a: Action)
    requires Schedules(a) && CanSchedule(s, a)
    ensures |ScheduleNext(s, a).workers| == |s.workers|
  {
  }

  lemma WorkKeepsWorkerCount(s: Sys, a: Action)
    requires Works(a) && CanWork(s, a)
    ensures |WorkNext(s, a).workers| == |s.workers|
  {
    hide Process, WB.Enabled, WB.Next;
  }

  lemma StepKeepsWorkerCount(s: Sys, a: Action)
    requires |s.workers| == WORKERS && Enabled(s, a)
    ensures |Next(s, a).workers| == WORKERS
  {
    hide CanSchedule, CanWork, ScheduleNext, WorkNext;
    if Schedules(a) {
      ScheduleKeepsWorkerCount(s, a);
    } else if Works(a) {
      WorkKeepsWorkerCount(s, a);
    }
  }

  /** The bounds of the service, over every run: four workers, 256 batches in the
      store's channel, and 1000 tasks in a take, which leaves a due task behind
      only when it has that many. */
  lemma {:induction false} BoundsHold(base: Db, now: int, actions: seq<Action>)
    requires Keyed(base) && Executable(InitialSys(base, now), actions)
    ensures var s := Execute(InitialSys(base, now), actions);
            && |s.workers| == 4 && |s.run.s.ch| <= 256
            && (forall i | 0 <= i < |s.hist.takes| :: |s.hist.takes[i].tasks| <= 1000)
            && (forall a: Action | a.Take? && Enabled(s, a) ::
                  |a.tasks| == 1000 || forall t | t in a.rest :: s.sched.at < t.expireAt)
  {
    ReachableSysInv(base, now, actions);
    RunKeepsWorkerCount(InitialSys(base, now), actions);
    var s := Execute(InitialSys(base, now), actions);
    assert forall i | 0 <= i < |s.hist.takes| :: TakeOk(s.hist.takes[i]);
  }

  /** Each task put into the heap by this process is in exactly one place. */
  lemma {:induction false} EveryTaskIsAccountedOnce(base: Db, now: int, actions: seq<Action>, t: Task)
    requires Keyed(base) && Executable(InitialSys(base, now), actions)
    ensures var s := Execute(InitialSys(base, now), actions);
            s.pushed[t] == s.heap[t] + Undispatched(s.sched, t) + AllHands(s.workers, t) + s.abandoned[t] + s.done[t]
  {
    ReachableSysInv(base, now, actions);
  }

  /** With NUL-free configurations, a request can only reach the very storage
      whose fingerprint was recorded when the object was uploaded. */
  lemma RequestReachesUploadTarget(r: Request, t: Task, uploadedTo: StorageS3)
    requires OnTarget(r) && t in r.tasks && t.fingerprint == Fingerprint(uploadedTo)
    requires Separable(TargetFields(uploadedTo)) && Separable(TargetFields(r.client))
    ensures r.client == uploadedTo && r.bucket == t.bucket
  {
    FingerprintIdentifies(uploadedTo, r.client);
  }
}
