/** Records are erased by host, bucket and object key. So a task can be in the
    heap without a record: when its object was cached again before the older task
    of that object completed. */
module ErasedRecords {
  import opened Options
  import opened NulKeys
  import opened StorageTarget
  import opened ExpirationLog
  import opened TaskGroups
  import opened ExpirationQueue
  import opened ExpirationSystem
  import opened NoLostTasks
  import opened WakeUps
  import opened Justifications
  import opened ExpirationSafety
  import WB = WriteBehind

  /** A completed deletion erases a record exactly when it shares its host,
      bucket and object key with a completed task, even a newer record. */
  lemma CompletionErasesByKey(s: Sys, w: nat, x: Task)
    requires Keyed(s.run.base) && Enabled(s, Complete(w))
    requires TaskKey(x) in Recorded(s) && Recorded(s)[TaskKey(x)] == x
    ensures var s' := Next(s, Complete(w));
            TaskKey(x) in Recorded(s') <==> forall t | t in s.workers[w].tasks :: TaskKey(t) != TaskKey(x)
  {
    CompleteErases(s, w);
  }

  /** With NUL-free hosts and buckets: exactly when a completed task is for the
      same object of the same bucket and host. */
  lemma {:induction false} CompletionErasesByObject(s: Sys, w: nat, x: Task)
    requires Keyed(s.run.base) && Enabled(s, Complete(w))
    requires TaskKey(x) in Recorded(s) && Recorded(s)[TaskKey(x)] == x
    requires NulFree(x.host) && NulFree(x.bucket)
    requires forall t | t in s.workers[w].tasks :: NulFree(t.host) && NulFree(t.bucket)
    ensures var s' := Next(s, Complete(w));
            TaskKey(x) !in Recorded(s') <==>
            exists t :: t in s.workers[w].tasks && t.host == x.host && t.bucket == x.bucket && t.key == x.key
  {
    CompletionErasesByKey(s, w, x);
    hide Enabled, Next;
    forall t | t in s.workers[w].tasks
      ensures TaskKey(t) == TaskKey(x) <==> t.host == x.host && t.bucket == x.bucket && t.key == x.key
    {
      TaskKeyIdentifies(t, x);
    }
  }

  // ---------- A run that leaves a heap task without a record ----------

  lemma ThreeSteps(s: Sys, a: Action, b: Action, c: Action)
    requires Enabled(s, a) && Enabled(Next(s, a), b) && Enabled(Next(Next(s, a), b), c)
    ensures Executable(s, [a, b, c]) && Execute(s, [a, b, c]) == Next(Next(Next(s, a), b), c)
  {
    hide Enabled, Next;
    TwoSteps(s, a, b);
    ExecuteOneMore(s, [a, b], c);
    assert [a, b] + [c] == [a, b, c];
  }

  lemma ExecuteNone(s: Sys)
    ensures Executable(s, []) && Execute(s, []) == s
  {
  }

  lemma ExecuteLast(s: Sys, actions: seq<Action>)
    requires actions != [] && Executable(s, actions)
    ensures var front := actions[..|actions| - 1];
            && Executable(s, front) && Enabled(Execute(s, front), actions[|actions| - 1])
            && Execute(s, actions) == Next(Execute(s, front), actions[|actions| - 1])
  {
    hide Enabled, Next;
  }

  lemma {:induction false} ExecuteAppend(s: Sys, a: seq<Action>, b: seq<Action>)
    requires Executable(s, a) && Executable(Execute(s, a), b)
    ensures Executable(s, a + b) && Execute(s, a + b) == Execute(Execute(s, a), b)
  {
    hide Enabled, Next, Executable, Execute;
    if b == [] {
      ExecuteNone(Execute(s, a));
      assert a + b == a;
    } else {
      var front, last := b[..|b| - 1], b[|b| - 1];
      ExecuteLast(Execute(s, a), b);
      ExecuteAppend(s, a, front);
      ExecuteOneMore(s, a + front, last);
      assert a + front + [last] == a + b;
    }
  }

  /** What the run needs of a state: an open store with an almost empty channel
      and a given log, and a storage for the host. */
  ghost predicate Going(s: Sys, log: seq<Batch>, host: string) {
    && s.run.base == map[] && s.run.log == log && !s.run.s.closed && |s.run.s.ch| == |log| < 10
    && host in s.settings && s.settings[host].endpoint != "" && host in s.clients
    && |s.workers| == WORKERS
  }

  ghost predicate Cached(s: Sys, older: Task) {
    && Going(s, [Events(Put, [older])], older.host)
    && s.heap == multiset{older} && s.sched.Ready? && s.workers[0].Idle? && |s.enqueuers| == 1
    && older.expireAt <= s.now
  }

  function Caching(older: Task, setting: StorageS3): seq<Action> {
    [Configure(map[older.host := setting], map[older.host := setting])] + [Save([older]), Push(0)]
  }

  ghost predicate Fresh(s: Sys, host: string) {
    Going(s, [], host) && s.heap == multiset{} && s.sched.Ready? && s.workers[0].Idle? && s.enqueuers == []
  }

  lemma ConfiguringRuns(now: int, host: string, setting: StorageS3)
    requires setting.endpoint != ""
    ensures var acts := [Configure(map[host := setting], map[host := setting])];
            && Executable(InitialSys(map[], now), acts)
            && Fresh(Execute(InitialSys(map[], now), acts), host)
            && Execute(InitialSys(map[], now), acts).now == now
  {
    var none: Db := map[];
    assert none.Values == {};
    OneStep(InitialSys(map[], now), Configure(map[host := setting], map[host := setting]));
  }

  lemma SavingRuns(s: Sys, older: Task)
    requires Fresh(s, older.host) && ValidTask(older) && older.expireAt <= s.now
    ensures Executable(s, [Save([older]), Push(0)]) && Cached(Execute(s, [Save([older]), Push(0)]), older)
  {
    var s1 := Next(s, Save([older]));
    assert s1.enqueuers == [Saved([older])] && s1.run.log == [Events(Put, [older])];
    assert multiset([older]) == multiset{older};
    TwoSteps(s, Save([older]), Push(0));
  }

  lemma CachingRuns(now: int, older: Task, setting: StorageS3)
    requires ValidTask(older) && older.expireAt <= now && setting.endpoint != ""
    ensures Executable(InitialSys(map[], now), Caching(older, setting))
    ensures Cached(Execute(InitialSys(map[], now), Caching(older, setting)), older)
  {
    hide Enabled, Next, Fresh, Cached, InitialSys, Executable, Execute;
    var acts := [Configure(map[older.host := setting], map[older.host := setting])];
    ConfiguringRuns(now, older.host, setting);
    SavingRuns(Execute(InitialSys(map[], now), acts), older);
    ExecuteAppend(InitialSys(map[], now), acts, [Save([older]), Push(0)]);
  }

  ghost predicate Dispatched(s: Sys, older: Task) {
    && Going(s, [Events(Put, [older])], older.host)
    && s.heap == multiset{} && s.workers[0].Started? && s.workers[0].tasks == [older] && |s.enqueuers| == 1
  }

  function Expiring(older: Task): seq<Action> {
    [Capture, Take([older], multiset{}, [GroupKey(older)], [[older]]), Dispatch(0, 0)]
  }

  lemma SingleGroup(t: Task)
    ensures Grouping([t], [GroupKey(t)], [[t]])
  {
    assert [t][..0] == [];
    assert InGroup([t], GroupKey(t)) == [t];
  }

  lemma ExpiringRuns(s: Sys, older: Task)
    requires Cached(s, older)
    ensures Executable(s, Expiring(older)) && Dispatched(Execute(s, Expiring(older)), older)
  {
    var acts := Expiring(older);
    SingleGroup(older);
    assert multiset([older]) + multiset{} == multiset{older};
    ThreeSteps(s, acts[0], acts[1], acts[2]);
  }

  ghost predicate Deleted(s: Sys, older: Task) {
    && Going(s, [Events(Put, [older])], older.host)
    && s.heap == multiset{} && s.workers[0].Completing? && s.workers[0].tasks == [older] && |s.enqueuers| == 1
  }

  const DELETING := [ReadSetting(0), ReadClient(0)] + [DeleteObjects(0, Answered({}))]

  lemma NoErrorsCompleteAll(t: Task, setting: StorageS3, client: StorageS3)
    requires setting.endpoint != ""
    ensures var o := Process([t], Some(setting), Some(client), Answered({}));
            o.Processed? && o.completed == [t]
  {
    assert [t][..0] == [];
    if Stale(t, setting, client) {
      assert StaleTasks([t], setting, client) == [t] && LiveTasks([t], setting, client) == [];
    } else {
      assert StaleTasks([t], setting, client) == [] && LiveTasks([t], setting, client) == [t];
      assert WithResult([t], Answered({}), true) == [t];
    }
  }

  ghost predicate Asking(s: Sys, older: Task) {
    && Going(s, [Events(Put, [older])], older.host)
    && s.heap == multiset{} && |s.enqueuers| == 1
    && s.workers[0].Connected? && s.workers[0].tasks == [older] && s.workers[0].setting.endpoint != ""
  }

  lemma ReadingRuns(s: Sys, older: Task)
    requires Dispatched(s, older)
    ensures Executable(s, [ReadSetting(0), ReadClient(0)])
    ensures Asking(Execute(s, [ReadSetting(0), ReadClient(0)]), older)
  {
    TwoSteps(s, ReadSetting(0), ReadClient(0));
  }

  lemma AskingRuns(s: Sys, older: Task)
    requires Asking(s, older)
    ensures Executable(s, [DeleteObjects(0, Answered({}))])
    ensures Deleted(Execute(s, [DeleteObjects(0, Answered({}))]), older)
  {
    NoErrorsCompleteAll(older, s.workers[0].setting, s.workers[0].client);
    OneStep(s, DeleteObjects(0, Answered({})));
  }

  lemma DeletingRuns(s: Sys, older: Task)
    requires Dispatched(s, older)
    ensures Executable(s, DELETING) && Deleted(Execute(s, DELETING), older)
  {
    hide Enabled, Next, Dispatched, Asking, Deleted, Executable, Execute;
    ReadingRuns(s, older);
    AskingRuns(Execute(s, [ReadSetting(0), ReadClient(0)]), older);
    ExecuteAppend(s, [ReadSetting(0), ReadClient(0)], [DeleteObjects(0, Answered({}))]);
  }

  function CachingAgain(newer: Task): seq<Action> {
    [Save([newer]), Push(1), Complete(0)]
  }

  ghost predicate Recordless(s: Sys, t: Task) {
    s.heap == multiset{t} && TaskKey(t) !in Recorded(s)
  }

  lemma CachingAgainRuns(s: Sys, older: Task, newer: Task)
    requires Deleted(s, older) && ValidTask(older) && ValidTask(newer) && TaskKey(newer) == TaskKey(older)
    ensures Executable(s, CachingAgain(newer)) && Recordless(Execute(s, CachingAgain(newer)), newer)
  {
    var acts := CachingAgain(newer);
    ThreeSteps(s, acts[0], acts[1], acts[2]);
    CompleteErases(Next(Next(s, acts[0]), acts[1]), 0);
  }

  /** For any storage and any two tasks for one object: the older one is saved,
      taken when due and deleted in S3; before its worker reports, the object is
      cached again; the report then erases the newer record, while the newer task
      stays in the heap. */
  lemma {:induction false} NewerRecordCanBeErased(now: int, older: Task, newer: Task, setting: StorageS3)
      returns (actions: seq<Action>)
    requires ValidTask(older) && ValidTask(newer) && TaskKey(newer) == TaskKey(older)
    requires older.expireAt <= now && setting.endpoint != ""
    ensures Executable(InitialSys(map[], now), actions)
    ensures Recordless(Execute(InitialSys(map[], now), actions), newer)
  {
    hide Enabled, Next, Cached, Dispatched, Deleted, Recordless, InitialSys, Executable, Execute;
    var s0 := InitialSys(map[], now);
    CachingRuns(now, older, setting);
    var s1 := Execute(s0, Caching(older, setting));
    ExpiringRuns(s1, older);
    ExecuteAppend(s0, Caching(older, setting), Expiring(older));
    var s2 := Execute(s1, Expiring(older));
    DeletingRuns(s2, older);
    ExecuteAppend(s0, Caching(older, setting) + Expiring(older), DELETING);
    CachingAgainRuns(Execute(s2, DELETING), older, newer);
    ExecuteAppend(s0, Caching(older, setting) + Expiring(older) + DELETING, CachingAgain(newer));
    actions := Caching(older, setting) + Expiring(older) + DELETING + CachingAgain(newer);
  }

  // ---------- Which heap tasks are without a record ----------

  /** The key has been recorded: at the beginning, or by the log. */
  predicate Known(s: Sys, k: string) {
    k in s.run.base || Touched(s.run.log, k)
  }

  ghost predicate HeapKnown(s: Sys) {
    forall t | t in s.heap :: Known(s, TaskKey(t))
  }

  ghost predicate SaversKnown(s: Sys) {
    forall i, t | 0 <= i < |s.enqueuers| && s.enqueuers[i].Saved? && t in s.enqueuers[i].tasks :: Known(s, TaskKey(t))
  }

  ghost predicate TasksKnown(s: Sys) {
    HeapKnown(s) && SaversKnown(s)
  }

  /** The log is longer or the same. */
  ghost predicate LogExtends(s: Sys, s': Sys) {
    s.run.log <= s'.run.log && s.run.base == s'.run.base
  }

  lemma ExtensionKeepsKnown(s: Sys, s': Sys, k: string)
    requires LogExtends(s, s') && Known(s, k)
    ensures Known(s', k)
  {
    if k !in s.run.base {
      var i :| 0 <= i < |s.run.log| && Touches(s.run.log[i], k);
      assert s'.run.log[i] == s.run.log[i];
    }
  }

  lemma StepExtendsLog(s: Sys, a: Action)
    requires Enabled(s, a) && !a.Restart?
    ensures LogExtends(s, Next(s, a))
  {
    if a.Save? {
      SaveExtendsLog(s, a.saved);
    } else if a.Complete? {
      CompleteExtendsLog(s, a.w);
    } else {
      hide Enabled, Next;
      LogOnlyGrowsBySubmission(s, a);
    }
  }

  lemma SaveExtendsLog(s: Sys, tasks: seq<Task>)
    requires Enabled(s, Save(tasks))
    ensures Next(s, Save(tasks)).run.log == s.run.log + [Events(Put, tasks)]
    ensures Next(s, Save(tasks)).run.base == s.run.base
  {
  }

  lemma CompleteExtendsLog(s: Sys, w: nat)
    requires Enabled(s, Complete(w))
    ensures LogExtends(s, Next(s, Complete(w)))
  {
  }

  /** No step but a push adds to the heap, and none but a save adds a saver. */
  ghost predicate NothingNew(s: Sys, s': Sys) {
    && (forall t | t in s'.heap :: t in s.heap)
    && |s'.enqueuers| == |s.enqueuers|
    && forall i | 0 <= i < |s.enqueuers| && s'.enqueuers[i].Saved? :: s'.enqueuers[i] == s.enqueuers[i]
  }

  lemma ScheduleAddsNothing(s: Sys, a: Action)
    requires Schedules(a) && CanSchedule(s, a)
    ensures NothingNew(s, ScheduleNext(s, a))
  {
    if a.Take? {
      assert forall t | t in a.rest :: t in multiset(a.tasks) + a.rest;
    }
  }

  lemma StepAddsNothing(s: Sys, a: Action)
    requires Enabled(s, a) && !a.Save? && !a.Push? && !a.Restart?
    ensures NothingNew(s, Next(s, a))
  {
    hide CanSchedule, CanWork, ScheduleNext, WorkNext;
    if Schedules(a) {
      ScheduleAddsNothing(s, a);
    } else if Works(a) {
      WorkLeavesQueueAlone(s, a);
    }
  }

  lemma NothingNewKeepsKnown(s: Sys, s': Sys)
    requires TasksKnown(s) && NothingNew(s, s') && LogExtends(s, s')
    ensures TasksKnown(s')
  {
    forall t | t in s'.heap
      ensures Known(s', TaskKey(t))
    {
      ExtensionKeepsKnown(s, s', TaskKey(t));
    }
    forall i, t | 0 <= i < |s'.enqueuers| && s'.enqueuers[i].Saved? && t in s'.enqueuers[i].tasks
      ensures Known(s', TaskKey(t))
    {
      assert s.enqueuers[i] == s'.enqueuers[i];
      ExtensionKeepsKnown(s, s', TaskKey(t));
    }
  }

  lemma SaveKeepsKnown(s: Sys, tasks: seq<Task>)
    requires TasksKnown(s) && Enabled(s, Save(tasks))
    ensures TasksKnown(Next(s, Save(tasks)))
  {
    var s' := Next(s, Save(tasks));
    SaveExtendsLog(s, tasks);
    assert s'.run.log[|s.run.log|] == Events(Put, tasks);
    forall t | t in tasks
      ensures Known(s', TaskKey(t))
    {
      var i :| 0 <= i < |tasks| && tasks[i] == t;
      assert TaskKey(Events(Put, tasks)[i].task) == TaskKey(t);
    }
    forall k | Known(s, k)
      ensures Known(s', k)
    {
      ExtensionKeepsKnown(s, s', k);
    }
    assert forall i | 0 <= i < |s.enqueuers| :: s'.enqueuers[i] == s.enqueuers[i];
  }

  lemma PushKeepsKnown(s: Sys, i: nat)
    requires TasksKnown(s) && Enabled(s, Push(i))
    ensures TasksKnown(Next(s, Push(i)))
  {
    var s' := Next(s, Push(i));
    assert forall k :: Known(s', k) <==> Known(s, k);
    forall t | t in s'.heap
      ensures Known(s, TaskKey(t))
    {
      assert t in s.heap || t in multiset(s.enqueuers[i].tasks);
    }
    assert forall j | 0 <= j < |s.enqueuers| && j != i :: s'.enqueuers[j] == s.enqueuers[j];
  }

  /** A process that has just started knows all its tasks from its records. */
  lemma LoadedIsKnown(s: Sys, records: seq<Batch>)
    requires Keyed(s.run.base) && s.run.s.db == Apply(s.run.base, Flatten(records)) && s.run.log == records
    requires s.heap == multiset(s.run.s.db.Values) && s.enqueuers == []
    ensures TasksKnown(s)
  {
    ApplyKeepsKeyed(s.run.base, Flatten(records));
    forall t | t in s.heap
      ensures Known(s, TaskKey(t))
    {
      assert TaskKey(t) in s.run.s.db;
      RecordedIsKnown(s.run.base, records, TaskKey(t));
    }
  }

  lemma StepKeepsKnown(s: Sys, a: Action)
    requires TasksKnown(s) && Keyed(s.run.base) && Enabled(s, a)
    ensures TasksKnown(Next(s, a))
  {
    hide Enabled, Next, TasksKnown;
    if a.Save? {
      SaveKeepsKnown(s, a.saved);
    } else if a.Push? {
      PushKeepsKnown(s, a.i);
    } else if a.Restart? {
      RestartKnows(s, a.cut, a.powerLoss);
    } else {
      StepExtendsLog(s, a);
      StepAddsNothing(s, a);
      NothingNewKeepsKnown(s, Next(s, a));
    }
  }

  lemma RestartKnows(s: Sys, cut: nat, powerLoss: bool)
    requires Keyed(s.run.base) && Enabled(s, Restart(cut, powerLoss))
    ensures TasksKnown(Next(s, Restart(cut, powerLoss)))
  {
    LoadedIsKnown(Next(s, Restart(cut, powerLoss)), s.run.log[..cut]);
  }

  lemma {:induction false} RunKeepsKnown(base: Db, now: int, actions: seq<Action>)
    requires Keyed(base) && Executable(InitialSys(base, now), actions)
    ensures TasksKnown(Execute(InitialSys(base, now), actions))
  {
    if actions == [] {
      LoadedIsKnown(InitialSys(base, now), []);
    } else {
      hide Enabled, Next, TasksKnown, InitialSys;
      RunKeepsKnown(base, now, actions[..|actions| - 1]);
      ReachableSysInv(base, now, actions[..|actions| - 1]);
      StepKeepsKnown(Execute(InitialSys(base, now), actions[..|actions| - 1]), actions[|actions| - 1]);
    }
  }

  /** The job deleted the record of this key by completing a task of it. */
  ghost predicate ErasedBy(h: History, job: Job, k: string) {
    exists t :: t in CompletedBy(job) && TaskKey(t) == k && DeletedBy(h, job, t)
  }

  lemma RecordAfterLastTouch(base: Db, log: seq<Batch>, i: nat, k: string)
    requires LastTouch(log, i, k)
    ensures LatestEvent(log[i], k).Some?
    ensures var e, db := LatestEvent(log[i], k).value, Apply(base, Flatten(log));
            && e in log[i] && TaskKey(e.task) == k
            && (k in db <==> e.op.Put?) && (e.op.Put? ==> db[k] == e.task)
  {
    LatestOfBatch(log[i], k);
    LatestOfLog(log, i, k);
    var e, db := LatestEvent(log[i], k).value, Apply(base, Flatten(log));
    if e.op.Put? {
      LatestEventWins(base, Flatten(log), k, e.task);
    } else if k in db {
      LatestEventWins(base, Flatten(log), k, db[k]);
    }
  }

  /** Over every run, a key that the log touches is without a record exactly when
      the last batch that touches it is the report of a job; then a task of that
      key was completed by this very job. Otherwise the record is one that the
      batch put. */
  lemma {:induction false} RecordlessExactlyWhenReported(base: Db, now: int, actions: seq<Action>, i: nat, k: string)
    requires Keyed(base) && Executable(InitialSys(base, now), actions)
    requires LastTouch(Execute(InitialSys(base, now), actions).run.log, i, k)
    ensures var s := Execute(InitialSys(base, now), actions);
            && |s.causes| == |s.run.log|
            && (k !in Recorded(s) <==> s.causes[i].Some?)
            && (s.causes[i].Some? ==>
                  s.causes[i].value < |s.hist.jobs| && ErasedBy(s.hist, s.hist.jobs[s.causes[i].value], k))
            && (s.causes[i].None? ==> Event(Put, Recorded(s)[k]) in s.run.log[i])
  {
    hide Executable, Execute, InitialSys, WB.Inv, Accounted, RecordsTracked;
    hide NoLostWakeUp, ClockOk, Justified, TasksKnown;
    ReachableSysInv(base, now, actions);
    LastTouchDecides(Execute(InitialSys(base, now), actions), i, k);
  }

  lemma LastTouchDecides(s: Sys, i: nat, k: string)
    requires Justified(LedgerOf(s)) && LastTouch(s.run.log, i, k)
    ensures |s.causes| == |s.run.log|
    ensures k !in Recorded(s) <==> s.causes[i].Some?
    ensures s.causes[i].Some? ==>
              s.causes[i].value < |s.hist.jobs| && ErasedBy(s.hist, s.hist.jobs[s.causes[i].value], k)
    ensures s.causes[i].None? ==> Event(Put, Recorded(s)[k]) in s.run.log[i]
  {
    hide DeletedBy, CompletedBy;
    RecordAfterLastTouch(s.run.base, s.run.log, i, k);
    var e := LatestEvent(s.run.log[i], k).value;
    assert Caused(s.hist, LedgerOf(s).causes[i], s.run.log[i]);
    if s.causes[i].Some? {
      assert e.task in CompletedBy(s.hist.jobs[s.causes[i].value]);
      CompletedTaskIsDeletedBy(s.hist, s.causes[i].value, e.task);
    }
  }

  /** So over every run, a task of the heap is without any record of its object
      exactly when the last batch that touches its key is the report of a job. */
  lemma {:induction false} HeapTaskIsRecordlessExactly(base: Db, now: int, actions: seq<Action>, t: Task)
    requires Keyed(base) && Executable(InitialSys(base, now), actions)
    requires t in Execute(InitialSys(base, now), actions).heap
    ensures var s := Execute(InitialSys(base, now), actions);
            && |s.causes| == |s.run.log|
            && (TaskKey(t) !in Recorded(s) <==>
                  exists i: nat :: LastTouch(s.run.log, i, TaskKey(t)) && s.causes[i].Some?)
  {
    hide Executable, Execute, InitialSys, WB.Inv, Accounted, RecordsTracked;
    hide NoLostWakeUp, ClockOk, Justified, TasksKnown;
    ReachableSysInv(base, now, actions);
    RunKeepsKnown(base, now, actions);
    HeapTaskDecided(Execute(InitialSys(base, now), actions), t);
  }

  lemma HeapTaskDecided(s: Sys, t: Task)
    requires Justified(LedgerOf(s)) && TasksKnown(s) && t in s.heap
    ensures |s.causes| == |s.run.log|
    ensures TaskKey(t) !in Recorded(s) <==>
            exists i: nat :: LastTouch(s.run.log, i, TaskKey(t)) && s.causes[i].Some?
  {
    var k := TaskKey(t);
    assert CausesOk(LedgerOf(s));
    if Touched(s.run.log, k) {
      var i := SomeLastTouch(s.run.log, k);
      LastTouchDecides(s, i, k);
      assert forall j: nat :: LastTouch(s.run.log, j, k) ==> j == i;
    } else {
      assert k in s.run.base;
      assert forall j: nat :: !LastTouch(s.run.log, j, k);
      NoneWhenUntouched(s.run.log, k);
      LatestEventWins(s.run.base, Flatten(s.run.log), k, s.run.base[k]);
    }
  }
}
