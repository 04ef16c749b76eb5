/** The whole expiration service as a step system: any number of enqueuers, the
    scheduler, the cleanup workers, the store's writer, changing settings, and
    crashes followed by a restart, interleaved in any order. */
module ExpirationSystem {
  import opened Options
  import opened Sequences
  import opened StorageTarget
  import opened ExpirationLog
  import opened ExpirationStore
  import opened TaskGroups
  import opened ExpirationQueue
  import WB = WriteBehind

  const WORKERS := 4

  /** EnqueueMany between its save and its push, between its push and its wake
      signal, and afterwards. */
  datatype Enqueuer = Saved(tasks: seq<Task>) | Pushed | Returned

  /** Run: about to read the clock, about to take, dispatching the groups of a
      take, between reading the next deadline and starting its timer, or asleep.
      `due` is that deadline (none when the heap was empty), `since` the time at
      which the delay to it was computed, `armed` when the timer was started. */
  datatype Scheduler =
    | Ready
    | Captured(at: int)
    | Dispatching(take: nat, groups: seq<seq<Task>>)
    | Parked(due: Option<int>, since: int)
    | Waiting(due: Option<int>, since: int, armed: int)

  /** When the timer of a sleeping scheduler fires. */
  function Fires(sched: Scheduler): int
    requires sched.Waiting? && sched.due.Some?
  {
    sched.armed + Delay(sched.due.value, sched.since)
  }

  /** processTaskGroup: before and after it reads the setting, after it reads
      the client, and before it reports completion. `job` is its number. */
  datatype Worker =
    | Idle
    | Started(job: nat, tasks: seq<Task>)
    | Configured(job: nat, tasks: seq<Task>, setting: StorageS3, settingAt: nat)
    | Connected(job: nat, tasks: seq<Task>, setting: StorageS3, settingAt: nat, client: StorageS3, clientAt: nat)
    | Completing(job: nat, tasks: seq<Task>)

  /** One take: the time the scheduler captured, and the tasks. */
  datatype Taken = Taken(at: int, tasks: seq<Task>)

  /** One group handed to a worker: the take it comes from, the number of the
      configuration that was in force, and what the worker compared and asked of
      S3, once it has. */
  datatype Job = Job(take: nat, tasks: seq<Task>, started: nat, work: Option<Work>)

  /** The setting and the client a worker read, what S3 answered, and the numbers
      of the configurations in force when each of these happened. */
  datatype Work = Work(
    setting: StorageS3, settingAt: nat, client: StorageS3, clientAt: nat, response: Response, answeredAt: nat)

  /** The effective setting and the client of each host. */
  datatype Config = Config(settings: map<string, StorageS3>, clients: map<string, StorageS3>)

  /** What has happened, ever, in order: the takes, the jobs and the
      configurations. The last configuration is in force. */
  datatype History = History(takes: seq<Taken>, jobs: seq<Job>, configs: seq<Config>)

  /** The number of the configuration in force. */
  function Current(h: History): nat {
    if h.configs == [] then 0 else |h.configs| - 1
  }

  /** `settings` and `clients` give the effective configuration of each host and
      the configuration its S3 client was built from. `pushed`, `done` and
      `abandoned` account for the tasks of this process: put into the heap,
      reported complete, and dropped after a logged failure. For each batch of
      the store's log, `causes` has the job that it reports, if any. */
  datatype Sys = Sys(
    run: WB.Run, now: int, heap: multiset<Task>, wake: bool,
    enqueuers: seq<Enqueuer>, sched: Scheduler, workers: seq<Worker>,
    settings: map<string, StorageS3>, clients: map<string, StorageS3>,
    pushed: multiset<Task>, done: multiset<Task>, abandoned: multiset<Task>,
    hist: History, causes: seq<Option<nat>>)

  datatype Action =
    | Clock(time: int)
    | Configure(settings: map<string, StorageS3>, clients: map<string, StorageS3>)
    | Save(saved: seq<Task>)
    | Push(i: nat)
    | Signal(i: nat)
    | Capture
    | Take(tasks: seq<Task>, rest: multiset<Task>, keys: seq<string>, groups: seq<seq<Task>>)
    | Sleep(next: Option<Task>)
    | Arm
    | WakeUp
    | Timer
    | Dispatch(g: nat, w: nat)
    | DispatchFails(g: nat)
    | DispatchEnds
    | ReadSetting(w: nat)
    | ReadClient(w: nat)
    | DeleteObjects(w: nat, response: Response)
    | Complete(w: nat)
    | CompleteRefused(w: nat)
    | Writer(a: WB.Action)
    | Restart(cut: nat, powerLoss: bool)

  /** A process that has just opened its store. */
  function Boot(run: WB.Run, now: int, settings: map<string, StorageS3>, clients: map<string, StorageS3>,
                hist: History, causes: seq<Option<nat>>): Sys
  {
    var heap := multiset(run.s.db.Values);
    Sys(run, now, heap, false, [], Ready, seq(WORKERS, _ => Idle), settings, clients, heap,
        multiset{}, multiset{}, hist, causes)
  }

  function InitialSys(base: Db, now: int): Sys {
    Boot(WB.Initial(base), now, map[], map[], History([], [], [Config(map[], map[])]), [])
  }

  predicate IsWriter(a: WB.Action) {
    a.Receive? || a.Tick? || a.CloseStore? || a.Drain?
  }

  /** Steps of the scheduler. */
  predicate Schedules(a: Action) {
    || a.Capture? || a.Take? || a.Sleep? || a.Arm? || a.WakeUp? || a.Timer?
    || a.Dispatch? || a.DispatchFails? || a.DispatchEnds?
  }

  ghost predicate CanSchedule(s: Sys, a: Action)
    requires Schedules(a)
  {
    match a
    case Capture => s.sched.Ready?
    case Take(tasks, rest, keys, groups) =>
      s.sched.Captured? && tasks != [] && TakesDue(s.heap, s.sched.at, BATCH_SIZE, tasks, rest) &&
        Grouping(tasks, keys, groups)
    case Sleep(next) =>
      && s.sched.Captured? && TakesDue(s.heap, s.sched.at, BATCH_SIZE, [], s.heap)
      && (next.None? <==> s.heap == multiset{}) && (next.Some? ==> IsNext(next.value, s.heap))
    case Arm => s.sched.Parked?
    case WakeUp => s.sched.Waiting? && s.wake
    case Timer => s.sched.Waiting? && s.sched.due.Some? && Fires(s.sched) <= s.now
    case Dispatch(g, w) => s.sched.Dispatching? && g < |s.sched.groups| && w < |s.workers| && s.workers[w].Idle?
    case DispatchFails(g) => s.sched.Dispatching? && g < |s.sched.groups|
    case DispatchEnds => s.sched.Dispatching? && s.sched.groups == []
  }

  /** Steps of a worker. */
  predicate Works(a: Action) {
    a.ReadSetting? || a.ReadClient? || a.DeleteObjects? || a.Complete? || a.CompleteRefused?
  }

  predicate CanWork(s: Sys, a: Action)
    requires Works(a)
  {
    && a.w < |s.workers|
    && match a
       case ReadSetting(w) => s.workers[w].Started?
       case ReadClient(w) => s.workers[w].Configured?
       case DeleteObjects(w, _) => s.workers[w].Connected?
       case Complete(w) =>
         s.workers[w].Completing? &&
         (s.workers[w].tasks == [] || WB.Enabled(s.run, WB.Submit(Delete, s.workers[w].tasks)))
       case CompleteRefused(w) => s.workers[w].Completing? && (s.run.s.closed || !Acceptable(s.workers[w].tasks))
  }

  ghost predicate Enabled(s: Sys, a: Action) {
    if Schedules(a) then CanSchedule(s, a)
    else if Works(a) then CanWork(s, a)
    else
      match a
      case Clock(time) => s.now <= time
      case Configure(_, _) => true
      case Save(tasks) => WB.Enabled(s.run, WB.Submit(Put, tasks))
      case Push(i) => i < |s.enqueuers| && s.enqueuers[i].Saved?
      case Signal(i) => i < |s.enqueuers| && s.enqueuers[i].Pushed?
      case Writer(wa) => IsWriter(wa) && WB.Enabled(s.run, wa)
      case Restart(cut, powerLoss) => WB.Enabled(s.run, WB.Crash(cut, powerLoss))
  }

  function WorkOf(h: History, wk: Worker, response: Response): Work
    requires wk.Connected?
  {
    Work(wk.setting, wk.settingAt, wk.client, wk.clientAt, response, Current(h))
  }

  /** The job's worker has compared the group and had its answer. */
  function Worked(h: History, job: nat, work: Work): History {
    if job < |h.jobs| then h.(jobs := h.jobs[job := h.jobs[job].(work := Some(work))]) else h
  }

  /** The worker's step through DeleteObjects, or past it when every task of the
      group is stale. */
  function AfterRequest(s: Sys, w: nat, response: Response): Sys
    requires w < |s.workers| && s.workers[w].Connected?
  {
    var wk := s.workers[w];
    match Process(wk.tasks, Some(wk.setting), Some(wk.client), response)
    case Unconfigured => Abandon(s, w)
    case Processed(request, completed, failed) =>
      s.(workers := s.workers[w := Completing(wk.job, completed)],
         abandoned := s.abandoned + multiset(failed),
         hist := Worked(s.hist, wk.job, WorkOf(s.hist, wk, response)))
  }

  function Abandon(s: Sys, w: nat): Sys
    requires w < |s.workers| && !s.workers[w].Idle?
  {
    s.(workers := s.workers[w := Idle], abandoned := s.abandoned + multiset(s.workers[w].tasks))
  }

  /** The worker reports its completed tasks to the store. */
  function Reported(s: Sys, w: nat): Sys
    requires CanWork(s, Complete(w))
  {
    var wk := s.workers[w];
    var s1 := s.(workers := s.workers[w := Idle], done := s.done + multiset(wk.tasks));
    if wk.tasks == [] then s1
    else s1.(run := WB.Next(s.run, WB.Submit(Delete, wk.tasks)), causes := s.causes + [Some(wk.job)])
  }

  ghost function ScheduleNext(s: Sys, a: Action): Sys
    requires Schedules(a) && CanSchedule(s, a)
  {
    match a
    case Capture => s.(sched := Captured(s.now))
    case Take(tasks, rest, keys, groups) =>
      s.(heap := rest, sched := Dispatching(|s.hist.takes|, groups),
         hist := s.hist.(takes := s.hist.takes + [Taken(s.sched.at, tasks)]))
    case Sleep(next) => s.(sched := Parked(if next.None? then None else Some(next.value.expireAt), s.now))
    case Arm => s.(sched := Waiting(s.sched.due, s.sched.since, s.now))
    case WakeUp => s.(wake := false, sched := Ready)
    case Timer => s.(sched := Ready)
    case Dispatch(g, w) =>
      s.(workers := s.workers[w := Started(|s.hist.jobs|, s.sched.groups[g])],
         sched := Dispatching(s.sched.take, Without(s.sched.groups, g)),
         hist := s.hist.(jobs := s.hist.jobs + [Job(s.sched.take, s.sched.groups[g], Current(s.hist), None)]))
    case DispatchFails(g) =>
      s.(abandoned := s.abandoned + multiset(s.sched.groups[g]),
         sched := Dispatching(s.sched.take, Without(s.sched.groups, g)))
    case DispatchEnds => s.(sched := Ready)
  }

  function WorkNext(s: Sys, a: Action): Sys
    requires Works(a) && CanWork(s, a)
  {
    match a
    case ReadSetting(w) =>
      var wk := s.workers[w];
      if wk.tasks != [] && wk.tasks[0].host in s.settings && s.settings[wk.tasks[0].host].endpoint != ""
      then s.(workers := s.workers[w := Configured(wk.job, wk.tasks, s.settings[wk.tasks[0].host], Current(s.hist))])
      else Abandon(s, w)
    case ReadClient(w) =>
      var wk := s.workers[w];
      if wk.tasks != [] && wk.tasks[0].host in s.clients
      then
        var client := s.clients[wk.tasks[0].host];
        s.(workers := s.workers[w := Connected(wk.job, wk.tasks, wk.setting, wk.settingAt, client, Current(s.hist))])
      else Abandon(s, w)
    case DeleteObjects(w, response) => AfterRequest(s, w, response)
    case Complete(w) => Reported(s, w)
    case CompleteRefused(w) => Abandon(s, w)
  }

  ghost function Next(s: Sys, a: Action): Sys
    requires Enabled(s, a)
  {
    if Schedules(a) then ScheduleNext(s, a)
    else if Works(a) then WorkNext(s, a)
    else
      match a
      case Clock(time) => s.(now := time)
      case Configure(settings, clients) =>
        s.(settings := settings, clients := clients,
           hist := s.hist.(configs := s.hist.configs + [Config(settings, clients)]))
      case Save(tasks) =>
        s.(run := WB.Next(s.run, WB.Submit(Put, tasks)), causes := s.causes + [None],
           enqueuers := s.enqueuers + [Saved(tasks)])
      case Push(i) =>
        var tasks := multiset(s.enqueuers[i].tasks);
        s.(heap := s.heap + tasks, pushed := s.pushed + tasks, enqueuers := s.enqueuers[i := Pushed])
      case Signal(i) => s.(wake := true, enqueuers := s.enqueuers[i := Returned])
      case Writer(wa) => s.(run := WB.Next(s.run, wa))
      case Restart(cut, powerLoss) =>
        Boot(WB.Next(s.run, WB.Crash(cut, powerLoss)), s.now, s.settings, s.clients, s.hist,
             if cut <= |s.causes| then s.causes[..cut] else s.causes)
  }

  ghost predicate Executable(s: Sys, actions: seq<Action>)
    decreases |actions|, 0
  {
    actions == [] ||
    (Executable(s, actions[..|actions| - 1]) && Enabled(Execute(s, actions[..|actions| - 1]), actions[|actions| - 1]))
  }

  ghost function Execute(s: Sys, actions: seq<Action>): Sys
    requires Executable(s, actions)
    decreases |actions|, 1
  {
    if actions == [] then s else Next(Execute(s, actions[..|actions| - 1]), actions[|actions| - 1])
  }

  lemma ExecuteOneMore(s: Sys, actions: seq<Action>, a: Action)
    requires Executable(s, actions) && Enabled(Execute(s, actions), a)
    ensures Executable(s, actions + [a]) && Execute(s, actions + [a]) == Next(Execute(s, actions), a)
  {
    hide Enabled, Next;
    assert (actions + [a])[..|actions + [a]| - 1] == actions;
  }

  // ---------- Where the tasks are ----------

  /** How many copies of a task a worker holds. */
  function Hands(wk: Worker, t: Task): nat {
    if wk.Idle? then 0 else multiset(wk.tasks)[t]
  }

  function AllHands(workers: seq<Worker>, t: Task): nat {
    if workers == [] then 0 else AllHands(workers[..|workers| - 1], t) + Hands(workers[|workers| - 1], t)
  }

  function GroupCount(groups: seq<seq<Task>>, t: Task): nat {
    if groups == [] then 0 else GroupCount(groups[..|groups| - 1], t) + multiset(groups[|groups| - 1])[t]
  }

  function Undispatched(sched: Scheduler, t: Task): nat {
    if sched.Dispatching? then GroupCount(sched.groups, t) else 0
  }

  /** The copies of a task in the heap, being dispatched, in workers' hands, or
      abandoned. */
  function InFlight(s: Sys, t: Task): nat {
    s.heap[t] + Undispatched(s.sched, t) + AllHands(s.workers, t) + s.abandoned[t]
  }

  lemma {:induction false} WorkerChanges(workers: seq<Worker>, w: nat, wk: Worker, t: Task)
    requires w < |workers|
    ensures AllHands(workers[w := wk], t) + Hands(workers[w], t) == AllHands(workers, t) + Hands(wk, t)
  {
    var n := |workers| - 1;
    if w < n {
      WorkerChanges(workers[..n], w, wk, t);
      assert workers[w := wk][..n] == workers[..n][w := wk];
    } else {
      assert workers[w := wk][..n] == workers[..n];
    }
  }

  lemma {:induction false} GroupCountAppend(a: seq<seq<Task>>, b: seq<seq<Task>>, t: Task)
    ensures GroupCount(a + b, t) == GroupCount(a, t) + GroupCount(b, t)
  {
    if b == [] {
      assert a + b == a;
    } else {
      GroupCountAppend(a, b[..|b| - 1], t);
      assert (a + b)[..|a + b| - 1] == a + b[..|b| - 1];
    }
  }

  lemma GroupCountOne(x: seq<Task>, t: Task)
    ensures GroupCount([x], t) == multiset(x)[t]
  {
    assert [x][..0] == [];
  }

  lemma GroupLeaves(groups: seq<seq<Task>>, g: nat, t: Task)
    requires g < |groups|
    ensures GroupCount(Without(groups, g), t) + multiset(groups[g])[t] == GroupCount(groups, t)
  {
    var a, x, b := groups[..g], groups[g], groups[g + 1..];
    GroupCountOne(x, t);
    GroupCountAppend(a, b, t);
    GroupCountAppend(a, [x], t);
    GroupCountAppend(a + [x], b, t);
    assert groups == a + [x] + b;
  }

  lemma {:induction false} GroupSumIsCount(groups: seq<seq<Task>>, t: Task)
    ensures GroupSum(groups)[t] == GroupCount(groups, t)
  {
    if groups != [] {
      GroupSumIsCount(groups[..|groups| - 1], t);
    }
  }

  lemma {:induction false} IdleHandsAreEmpty(workers: seq<Worker>, t: Task)
    requires forall i | 0 <= i < |workers| :: workers[i].Idle?
    ensures AllHands(workers, t) == 0
  {
    if workers != [] {
      IdleHandsAreEmpty(workers[..|workers| - 1], t);
    }
  }

  lemma TakeConserves(s: Sys, a: Action, t: Task)
    requires a.Take? && CanSchedule(s, a)
    ensures InFlight(ScheduleNext(s, a), t) == InFlight(s, t)
  {
    GroupsConserve(a.tasks, a.keys, a.groups);
    GroupSumIsCount(a.groups, t);
    assert s.heap[t] == (multiset(a.tasks) + a.rest)[t] == GroupCount(a.groups, t) + a.rest[t];
    assert Undispatched(s.sched, t) == 0 && Undispatched(ScheduleNext(s, a).sched, t) == GroupCount(a.groups, t);
  }

  lemma DispatchConserves(s: Sys, a: Action, t: Task)
    requires (a.Dispatch? || a.DispatchFails?) && CanSchedule(s, a)
    ensures InFlight(ScheduleNext(s, a), t) == InFlight(s, t)
  {
    var group := s.sched.groups[a.g];
    GroupLeaves(s.sched.groups, a.g, t);
    if a.Dispatch? {
      WorkerChanges(s.workers, a.w, Started(|s.hist.jobs|, group), t);
    } else {
      assert (s.abandoned + multiset(group))[t] == s.abandoned[t] + multiset(group)[t];
    }
  }

  lemma ScheduleConserves(s: Sys, a: Action, t: Task)
    requires Schedules(a) && CanSchedule(s, a)
    ensures InFlight(ScheduleNext(s, a), t) == InFlight(s, t)
    ensures ScheduleNext(s, a).pushed == s.pushed && ScheduleNext(s, a).done == s.done
  {
    if a.Take? {
      TakeConserves(s, a, t);
    } else if a.Dispatch? || a.DispatchFails? {
      DispatchConserves(s, a, t);
    }
  }

  lemma RequestConserves(s: Sys, w: nat, response: Response, t: Task)
    requires w < |s.workers| && s.workers[w].Connected?
    ensures InFlight(AfterRequest(s, w, response), t) == InFlight(s, t)
  {
    var wk := s.workers[w];
    var o := Process(wk.tasks, Some(wk.setting), Some(wk.client), response);
    OutcomeConserves(wk.tasks, Some(wk.setting), Some(wk.client), response);
    if o.Processed? {
      WorkerChanges(s.workers, w, Completing(wk.job, o.completed), t);
      assert (multiset(o.completed) + multiset(o.failed))[t] == multiset(wk.tasks)[t];
    } else {
      WorkerChanges(s.workers, w, Idle, t);
    }
  }

  lemma AbandonConserves(s: Sys, w: nat, t: Task)
    requires w < |s.workers| && !s.workers[w].Idle?
    ensures InFlight(Abandon(s, w), t) == InFlight(s, t)
  {
    WorkerChanges(s.workers, w, Idle, t);
    assert (s.abandoned + multiset(s.workers[w].tasks))[t] == s.abandoned[t] + multiset(s.workers[w].tasks)[t];
  }

  lemma WorkConserves(s: Sys, a: Action, t: Task)
    requires Works(a) && !a.Complete? && CanWork(s, a)
    ensures InFlight(WorkNext(s, a), t) == InFlight(s, t)
    ensures WorkNext(s, a).pushed == s.pushed && WorkNext(s, a).done == s.done
  {
    if a.DeleteObjects? {
      RequestConserves(s, a.w, a.response, t);
    } else {
      AbandonConserves(s, a.w, t);
      WorkerChanges(s.workers, a.w, WorkNext(s, a).workers[a.w], t);
    }
  }

  /** Steps that neither add to the heap, report a completion nor restart. */
  predicate Moves(a: Action) {
    !a.Push? && !a.Complete? && !a.Restart?
  }

  lemma MovesConserve(s: Sys, a: Action, t: Task)
    requires Enabled(s, a) && Moves(a)
    ensures InFlight(Next(s, a), t) == InFlight(s, t)
    ensures Next(s, a).pushed == s.pushed && Next(s, a).done == s.done
  {
    hide CanSchedule, CanWork, ScheduleNext, WorkNext;
    if Schedules(a) {
      ScheduleConserves(s, a, t);
    } else if Works(a) {
      WorkConserves(s, a, t);
    }
  }

  /** Every task this process put into the heap is accounted for exactly once. */
  ghost predicate Accounted(s: Sys) {
    forall t :: s.pushed[t] == InFlight(s, t) + s.done[t]
  }

  lemma PushAdds(s: Sys, i: nat, t: Task)
    requires Enabled(s, Push(i))
    ensures var s' := Next(s, Push(i));
            InFlight(s', t) - InFlight(s, t) == s'.pushed[t] - s.pushed[t] && s'.done == s.done
  {
  }

  lemma CompleteMoves(s: Sys, w: nat, t: Task)
    requires Enabled(s, Complete(w))
    ensures var s' := Next(s, Complete(w));
            InFlight(s', t) + s'.done[t] == InFlight(s, t) + s.done[t] && s'.pushed == s.pushed
  {
    WorkerChanges(s.workers, w, Idle, t);
    assert (s.done + multiset(s.workers[w].tasks))[t] == s.done[t] + multiset(s.workers[w].tasks)[t];
  }

  lemma BootHoldsOnlyTheHeap(run: WB.Run, now: int, settings: map<string, StorageS3>, clients: map<string, StorageS3>,
                             hist: History, causes: seq<Option<nat>>, t: Task)
    ensures var s := Boot(run, now, settings, clients, hist, causes);
            InFlight(s, t) == s.heap[t] == s.pushed[t] && s.done[t] == 0
  {
    IdleHandsAreEmpty(Boot(run, now, settings, clients, hist, causes).workers, t);
  }

  lemma RestartCounts(s: Sys, cut: nat, powerLoss: bool, t: Task)
    requires Enabled(s, Restart(cut, powerLoss))
    ensures var s' := Next(s, Restart(cut, powerLoss));
            InFlight(s', t) == s'.heap[t] == s'.pushed[t] && s'.done[t] == 0
  {
    var s' := Next(s, Restart(cut, powerLoss));
    BootHoldsOnlyTheHeap(s'.run, s'.now, s'.settings, s'.clients, s'.hist, s'.causes, t);
  }

  lemma StepKeepsAccounted(s: Sys, a: Action)
    requires Accounted(s) && Enabled(s, a)
    ensures Accounted(Next(s, a))
  {
    hide Enabled, Next, InFlight;
    forall t
      ensures Next(s, a).pushed[t] == InFlight(Next(s, a), t) + Next(s, a).done[t]
    {
      assert s.pushed[t] == InFlight(s, t) + s.done[t];
      if a.Push? {
        PushAdds(s, a.i, t);
      } else if a.Complete? {
        CompleteMoves(s, a.w, t);
      } else if a.Restart? {
        RestartCounts(s, a.cut, a.powerLoss, t);
      } else {
        MovesConserve(s, a, t);
      }
    }
  }
}
