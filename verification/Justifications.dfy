/** Why a record was deleted: every batch of deletions in the store's log is the
    report of one job, whose own comparison or request resolved each task. */
module Justifications {
  import opened NulKeys
  import opened Options
  import opened Sequences
  import opened StorageTarget
  import opened ExpirationLog
  import opened TaskGroups
  import opened ExpirationQueue
  import opened ExpirationSystem
  import WB = WriteBehind

  // ---------- Jobs ----------

  /** What a job came to, once it has worked. */
  function OutcomeOf(job: Job): Outcome {
    if job.work.None? then Unconfigured
    else
      var w := job.work.value;
      Process(job.tasks, Some(w.setting), Some(w.client), w.response)
  }

  function CompletedBy(job: Job): seq<Task> {
    if OutcomeOf(job).Processed? then OutcomeOf(job).completed else []
  }

  /** The group is one of the groups of the take. */
  ghost predicate FromTake(takes: seq<Taken>, take: nat, group: seq<Task>) {
    take < |takes| && group != [] && group == InGroup(takes[take].tasks, GroupKey(group[0]))
  }

  /** A take has at most a batch of tasks, all due at its time. */
  ghost predicate TakeOk(k: Taken) {
    |k.tasks| <= BATCH_SIZE && forall t | t in k.tasks :: t.expireAt <= k.at
  }

  /** Configuration n has this setting for the host. */
  predicate HadSetting(h: History, n: nat, host: string, setting: StorageS3) {
    n < |h.configs| && host in h.configs[n].settings && h.configs[n].settings[host] == setting
  }

  predicate HadClient(h: History, n: nat, host: string, client: StorageS3) {
    n < |h.configs| && host in h.configs[n].clients && h.configs[n].clients[host] == client
  }

  /** The worker read the setting and then the client of the group's host, each
      while it was in force, after it was given the group and before S3
      answered. */
  predicate ReadInOrder(h: History, job: Job, w: Work) {
    && job.tasks != []
    && job.started <= w.settingAt <= w.clientAt <= w.answeredAt < |h.configs|
    && HadSetting(h, w.settingAt, job.tasks[0].host, w.setting)
    && HadClient(h, w.clientAt, job.tasks[0].host, w.client)
  }

  ghost predicate JobOk(h: History, job: Job) {
    && FromTake(h.takes, job.take, job.tasks)
    && job.started < |h.configs|
    && (job.work.Some? ==> ReadInOrder(h, job, job.work.value))
  }

  ghost predicate HistoryOk(h: History) {
    && (forall i | 0 <= i < |h.takes| :: TakeOk(h.takes[i]))
    && (forall j | 0 <= j < |h.jobs| :: JobOk(h, h.jobs[j]))
  }

  // ---------- The part of the state that the deletions depend on ----------

  datatype Ledger = Ledger(
    log: seq<Batch>, causes: seq<Option<nat>>, hist: History, workers: seq<Worker>,
    take: nat, groups: seq<seq<Task>>, settings: map<string, StorageS3>, clients: map<string, StorageS3>)

  function LedgerOf(s: Sys): Ledger {
    var dispatching := s.sched.Dispatching?;
    Ledger(s.run.log, s.causes, s.hist, s.workers,
           if dispatching then s.sched.take else 0, if dispatching then s.sched.groups else [], s.settings, s.clients)
  }

  ghost predicate ConfigOk(l: Ledger) {
    l.hist.configs != [] && l.hist.configs[Current(l.hist)] == Config(l.settings, l.clients)
  }

  ghost predicate GroupsOk(l: Ledger) {
    forall i | 0 <= i < |l.groups| :: FromTake(l.hist.takes, l.take, l.groups[i])
  }

  ghost predicate WorkerOk(h: History, wk: Worker) {
    && (!wk.Idle? ==> wk.job < |h.jobs|)
    && (wk.Started? || wk.Configured? || wk.Connected? ==>
          h.jobs[wk.job].tasks == wk.tasks && h.jobs[wk.job].work == None)
    && (wk.Configured? || wk.Connected? ==>
          && wk.tasks != [] && h.jobs[wk.job].started <= wk.settingAt
          && HadSetting(h, wk.settingAt, wk.tasks[0].host, wk.setting))
    && (wk.Connected? ==> wk.settingAt <= wk.clientAt && HadClient(h, wk.clientAt, wk.tasks[0].host, wk.client))
    && (wk.Completing? ==> h.jobs[wk.job].work.Some? && wk.tasks == CompletedBy(h.jobs[wk.job]))
  }

  /** No two workers have the same job. */
  ghost predicate JobsApart(workers: seq<Worker>) {
    forall v, w | 0 <= v < w < |workers| && !workers[v].Idle? && !workers[w].Idle? :: workers[v].job != workers[w].job
  }

  ghost predicate WorkersOk(l: Ledger) {
    (forall w | 0 <= w < |l.workers| :: WorkerOk(l.hist, l.workers[w])) && JobsApart(l.workers)
  }

  /** A batch without a cause has no deletion; a batch with one is the report of
      that job, which has worked. */
  ghost predicate Caused(h: History, cause: Option<nat>, batch: Batch) {
    match cause
    case None => forall e | e in batch :: e.op.Put?
    case Some(j) => j < |h.jobs| && h.jobs[j].work.Some? && batch == Events(Delete, CompletedBy(h.jobs[j]))
  }

  /** No job is the cause of two batches, or of one while a worker still has
      it. */
  ghost predicate CausesApart(causes: seq<Option<nat>>, workers: seq<Worker>) {
    && (forall i, k | 0 <= i < k < |causes| && causes[i].Some? :: causes[i] != causes[k])
    && (forall i, w | 0 <= i < |causes| && 0 <= w < |workers| && !workers[w].Idle? :: causes[i] != Some(workers[w].job))
  }

  ghost predicate CausesOk(l: Ledger) {
    && |l.causes| == |l.log|
    && (forall i | 0 <= i < |l.log| :: Caused(l.hist, l.causes[i], l.log[i]))
    && CausesApart(l.causes, l.workers)
  }

  ghost predicate Justified(l: Ledger) {
    HistoryOk(l.hist) && ConfigOk(l) && GroupsOk(l) && WorkersOk(l) && CausesOk(l)
  }

  // ---------- Every step keeps the ledger justified ----------

  lemma TakeKeepsJustified(l: Ledger, k: Taken, take: nat, groups: seq<seq<Task>>)
    requires Justified(l) && TakeOk(k) && take == |l.hist.takes|
    requires forall i | 0 <= i < |groups| :: groups[i] != [] && groups[i] == InGroup(k.tasks, GroupKey(groups[i][0]))
    ensures Justified(l.(hist := l.hist.(takes := l.hist.takes + [k]), take := take, groups := groups))
  {
    var h' := l.hist.(takes := l.hist.takes + [k]);
    forall j | 0 <= j < |h'.jobs|
      ensures JobOk(h', h'.jobs[j])
    {
      assert JobOk(l.hist, l.hist.jobs[j]);
    }
    forall w | 0 <= w < |l.workers|
      ensures WorkerOk(h', l.workers[w])
    {
      assert WorkerOk(l.hist, l.workers[w]);
    }
  }

  /** Nothing that depends on the history is lost when jobs are added. */
  lemma AddedJobKeepsHistory(h: History, job: Job)
    requires HistoryOk(h) && JobOk(h, job)
    ensures HistoryOk(h.(jobs := h.jobs + [job]))
  {
    var h' := h.(jobs := h.jobs + [job]);
    forall j | 0 <= j < |h'.jobs|
      ensures JobOk(h', h'.jobs[j])
    {
      assert j < |h.jobs| ==> JobOk(h, h.jobs[j]);
    }
  }

  lemma DispatchKeepsJustified(l: Ledger, g: nat, w: nat)
    requires Justified(l) && g < |l.groups| && w < |l.workers| && l.workers[w].Idle?
    ensures Justified(l.(hist := l.hist.(jobs := l.hist.jobs + [Job(l.take, l.groups[g], Current(l.hist), None)]),
                         workers := l.workers[w := Started(|l.hist.jobs|, l.groups[g])],
                         groups := Without(l.groups, g)))
  {
    var job := Job(l.take, l.groups[g], Current(l.hist), None);
    var h', workers := l.hist.(jobs := l.hist.jobs + [job]), l.workers[w := Started(|l.hist.jobs|, l.groups[g])];
    AddedJobKeepsHistory(l.hist, job);
    assert forall i | 0 <= i < |Without(l.groups, g)| :: Without(l.groups, g)[i] in l.groups;
    forall v | 0 <= v < |workers|
      ensures WorkerOk(h', workers[v])
    {
      assert v != w ==> WorkerOk(l.hist, l.workers[v]);
    }
    assert forall v | 0 <= v < |l.workers| :: WorkerOk(l.hist, l.workers[v]);
    forall i | 0 <= i < |l.log|
      ensures Caused(h', l.causes[i], l.log[i]) && l.causes[i] != Some(|l.hist.jobs|)
    {
      assert Caused(l.hist, l.causes[i], l.log[i]);
    }
  }

  lemma DropKeepsJustified(l: Ledger, g: nat)
    requires Justified(l) && g < |l.groups|
    ensures Justified(l.(groups := Without(l.groups, g)))
  {
    assert forall i | 0 <= i < |Without(l.groups, g)| :: Without(l.groups, g)[i] in l.groups;
  }

  lemma NoGroupsLeft(l: Ledger)
    requires Justified(l) && l.groups == []
    ensures Justified(l.(take := 0))
  {
  }

  /** A worker goes on with its job, or becomes idle. */
  lemma WorkerMoves(l: Ledger, w: nat, wk: Worker)
    requires Justified(l) && w < |l.workers| && WorkerOk(l.hist, wk)
    requires wk.Idle? || (!l.workers[w].Idle? && wk.job == l.workers[w].job)
    ensures Justified(l.(workers := l.workers[w := wk]))
  {
  }

  lemma AnswerKeepsHistory(h: History, job: nat, work: Work)
    requires HistoryOk(h) && job < |h.jobs| && ReadInOrder(h, h.jobs[job], work)
    ensures HistoryOk(Worked(h, job, work))
  {
    var h' := Worked(h, job, work);
    forall j | 0 <= j < |h'.jobs|
      ensures JobOk(h', h'.jobs[j])
    {
      assert JobOk(h, h.jobs[j]);
    }
  }

  /** A worker's answer is recorded with its job; no other worker and no batch
      of the log depends on it yet. */
  lemma AnswerKeepsJustified(l: Ledger, w: nat, response: Response)
    requires Justified(l) && w < |l.workers| && l.workers[w].Connected?
    requires var wk := l.workers[w];
             Process(wk.tasks, Some(wk.setting), Some(wk.client), response).Processed?
    ensures var wk := l.workers[w];
            var o := Process(wk.tasks, Some(wk.setting), Some(wk.client), response);
            Justified(l.(hist := Worked(l.hist, wk.job, WorkOf(l.hist, wk, response)),
                         workers := l.workers[w := Completing(wk.job, o.completed)]))
  {
    var wk := l.workers[w];
    var work := WorkOf(l.hist, wk, response);
    assert WorkerOk(l.hist, wk);
    AnswerKeepsHistory(l.hist, wk.job, work);
    AnswerKeepsWorkers(l, w, work);
    AnswerKeepsCauses(l, w, work);
  }

  lemma AnswerKeepsWorkers(l: Ledger, w: nat, work: Work)
    requires WorkersOk(l) && w < |l.workers| && l.workers[w].Connected?
    requires var wk := l.workers[w];
             Process(wk.tasks, Some(work.setting), Some(work.client), work.response).Processed?
    ensures var wk := l.workers[w];
            var o := Process(wk.tasks, Some(work.setting), Some(work.client), work.response);
            WorkersOk(l.(hist := Worked(l.hist, wk.job, work),
                         workers := l.workers[w := Completing(wk.job, o.completed)]))
  {
    hide Process;
    var wk := l.workers[w];
    var h' := Worked(l.hist, wk.job, work);
    var o := Process(wk.tasks, Some(work.setting), Some(work.client), work.response);
    var workers := l.workers[w := Completing(wk.job, o.completed)];
    assert WorkerOk(l.hist, wk);
    forall v | 0 <= v < |workers|
      ensures WorkerOk(h', workers[v])
    {
      assert WorkerOk(l.hist, l.workers[v]);
    }
  }

  lemma AnswerKeepsCauses(l: Ledger, w: nat, work: Work)
    requires CausesOk(l) && w < |l.workers| && l.workers[w].Connected?
    ensures forall i | 0 <= i < |l.log| :: Caused(Worked(l.hist, l.workers[w].job, work), l.causes[i], l.log[i])
  {
    forall i | 0 <= i < |l.log|
      ensures Caused(Worked(l.hist, l.workers[w].job, work), l.causes[i], l.log[i])
    {
      assert Caused(l.hist, l.causes[i], l.log[i]) && l.causes[i] != Some(l.workers[w].job);
    }
  }

  lemma ReportKeepsJustified(l: Ledger, w: nat)
    requires Justified(l) && w < |l.workers| && l.workers[w].Completing?
    ensures Justified(l.(workers := l.workers[w := Idle], log := l.log + [Events(Delete, l.workers[w].tasks)],
                         causes := l.causes + [Some(l.workers[w].job)]))
  {
    hide Process, InGroup;
    assert WorkerOk(l.hist, l.workers[w]);
  }

  lemma SaveKeepsJustified(l: Ledger, tasks: seq<Task>)
    requires Justified(l)
    ensures Justified(l.(log := l.log + [Events(Put, tasks)], causes := l.causes + [None]))
  {
  }

  lemma ConfigureKeepsJustified(l: Ledger, config: Config)
    requires Justified(l)
    ensures Justified(l.(hist := l.hist.(configs := l.hist.configs + [config]),
                         settings := config.settings, clients := config.clients))
  {
    var h' := l.hist.(configs := l.hist.configs + [config]);
    forall j | 0 <= j < |h'.jobs|
      ensures JobOk(h', h'.jobs[j])
    {
      assert JobOk(l.hist, l.hist.jobs[j]);
    }
    forall w | 0 <= w < |l.workers|
      ensures WorkerOk(h', l.workers[w])
    {
      assert WorkerOk(l.hist, l.workers[w]);
    }
  }

  lemma RestartKeepsJustified(l: Ledger, cut: nat, workers: seq<Worker>)
    requires Justified(l) && cut <= |l.log| && forall w | 0 <= w < |workers| :: workers[w].Idle?
    ensures Justified(l.(log := l.log[..cut], causes := l.causes[..cut], workers := workers, take := 0, groups := []))
  {
  }

  // ---------- Which ledger step a system step is ----------

  lemma TakeIsLedgerStep(s: Sys, a: Action)
    requires a.Take? && CanSchedule(s, a) && Justified(LedgerOf(s))
    ensures Justified(LedgerOf(ScheduleNext(s, a)))
  {
    var k := Taken(s.sched.at, a.tasks);
    forall i | 0 <= i < |a.groups|
      ensures a.groups[i] != [] && a.groups[i] == InGroup(k.tasks, GroupKey(a.groups[i][0]))
    {
      assert a.keys[i] in a.keys;
      InGroupEmptyIffNone(a.tasks, a.keys[i]);
      GroupMembers(a.tasks, a.keys[i]);
      assert a.groups[i][0] in InGroup(a.tasks, a.keys[i]);
    }
    TakeKeepsJustified(LedgerOf(s), k, |s.hist.takes|, a.groups);
  }

  lemma ScheduleKeepsJustified(s: Sys, a: Action)
    requires Schedules(a) && CanSchedule(s, a) && Justified(LedgerOf(s))
    ensures Justified(LedgerOf(ScheduleNext(s, a)))
  {
    hide Justified;
    if a.Take? {
      TakeIsLedgerStep(s, a);
    } else if a.Dispatch? {
      DispatchKeepsJustified(LedgerOf(s), a.g, a.w);
    } else if a.DispatchFails? {
      DropKeepsJustified(LedgerOf(s), a.g);
    } else if a.DispatchEnds? {
      NoGroupsLeft(LedgerOf(s));
    } else {
      assert LedgerOf(ScheduleNext(s, a)) == LedgerOf(s);
    }
  }

  lemma WorkerStops(s: Sys, w: nat)
    requires w < |s.workers| && !s.workers[w].Idle? && Justified(LedgerOf(s))
    ensures Justified(LedgerOf(Abandon(s, w)))
  {
    WorkerMoves(LedgerOf(s), w, Idle);
  }

  lemma ReadSettingKeepsJustified(s: Sys, w: nat)
    requires CanWork(s, ReadSetting(w)) && Justified(LedgerOf(s))
    ensures Justified(LedgerOf(WorkNext(s, ReadSetting(w))))
  {
    var wk := s.workers[w];
    WorkerStops(s, w);
    assert WorkerOk(s.hist, wk);
    if wk.tasks != [] && wk.tasks[0].host in s.settings && s.settings[wk.tasks[0].host].endpoint != "" {
      var host := wk.tasks[0].host;
      WorkerMoves(LedgerOf(s), w, Configured(wk.job, wk.tasks, s.settings[host], Current(s.hist)));
    }
  }

  lemma ReadClientKeepsJustified(s: Sys, w: nat)
    requires CanWork(s, ReadClient(w)) && Justified(LedgerOf(s))
    ensures Justified(LedgerOf(WorkNext(s, ReadClient(w))))
  {
    var wk := s.workers[w];
    WorkerStops(s, w);
    assert WorkerOk(s.hist, wk);
    if wk.tasks != [] && wk.tasks[0].host in s.clients {
      var host := wk.tasks[0].host;
      var wk' := Connected(wk.job, wk.tasks, wk.setting, wk.settingAt, s.clients[host], Current(s.hist));
      WorkerMoves(LedgerOf(s), w, wk');
    }
  }

  lemma WorkKeepsJustified(s: Sys, a: Action)
    requires Works(a) && CanWork(s, a) && Justified(LedgerOf(s))
    ensures Justified(LedgerOf(WorkNext(s, a)))
  {
    match a
    case ReadSetting(w) => ReadSettingKeepsJustified(s, w);
    case ReadClient(w) => ReadClientKeepsJustified(s, w);
    case DeleteObjects(w, response) => AnswerIsLedgerStep(s, w, response);
    case Complete(w) => CompleteIsLedgerStep(s, w);
    case CompleteRefused(w) => WorkerStops(s, w);
  }

  lemma AnswerIsLedgerStep(s: Sys, w: nat, response: Response)
    requires CanWork(s, DeleteObjects(w, response)) && Justified(LedgerOf(s))
    ensures Justified(LedgerOf(AfterRequest(s, w, response)))
  {
    hide Justified;
    var wk := s.workers[w];
    if Process(wk.tasks, Some(wk.setting), Some(wk.client), response).Processed? {
      AnswerKeepsJustified(LedgerOf(s), w, response);
    } else {
      WorkerStops(s, w);
    }
  }

  lemma CompleteIsLedgerStep(s: Sys, w: nat)
    requires CanWork(s, Complete(w)) && Justified(LedgerOf(s))
    ensures Justified(LedgerOf(Reported(s, w)))
  {
    if s.workers[w].tasks == [] {
      WorkerMoves(LedgerOf(s), w, Idle);
    } else {
      ReportKeepsJustified(LedgerOf(s), w);
    }
  }

  lemma RestartIsLedgerStep(s: Sys, cut: nat, powerLoss: bool)
    requires Enabled(s, Restart(cut, powerLoss)) && Justified(LedgerOf(s))
    ensures Justified(LedgerOf(Next(s, Restart(cut, powerLoss))))
  {
    var s' := Next(s, Restart(cut, powerLoss));
    RestartKeepsJustified(LedgerOf(s), cut, s'.workers);
  }

  lemma WriterLeavesLedgerAlone(s: Sys, wa: WB.Action)
    requires Enabled(s, Writer(wa))
    ensures LedgerOf(Next(s, Writer(wa))) == LedgerOf(s)
  {
    WB.WriterKeepsLog(s.run, wa);
  }

  lemma StepKeepsJustified(s: Sys, a: Action)
    requires Justified(LedgerOf(s)) && Enabled(s, a)
    ensures Justified(LedgerOf(Next(s, a)))
  {
    hide CanSchedule, CanWork, ScheduleNext, WorkNext, Justified;
    if Schedules(a) {
      ScheduleKeepsJustified(s, a);
    } else if Works(a) {
      WorkKeepsJustified(s, a);
    } else if a.Configure? {
      ConfigureKeepsJustified(LedgerOf(s), Config(a.settings, a.clients));
    } else if a.Save? {
      SaveKeepsJustified(LedgerOf(s), a.saved);
    } else if a.Restart? {
      RestartIsLedgerStep(s, a.cut, a.powerLoss);
    } else if a.Writer? {
      WriterLeavesLedgerAlone(s, a.a);
    } else {
      assert LedgerOf(Next(s, a)) == LedgerOf(s);
    }
  }

  // ---------- What that means for one deletion ----------

  /** Deleting the record of t is the job's doing: t was in its group, was due
      when it was taken, belongs to the host whose setting and client the job's
      worker read while they were in force, and was found stale by this job's
      comparison or deleted without error by this job's request. */
  ghost predicate DeletedBy(h: History, job: Job, t: Task) {
    && job.work.Some? && OutcomeOf(job).Processed? && job.tasks != [] && t in job.tasks
    && job.take < |h.takes| && t in h.takes[job.take].tasks && t.expireAt <= h.takes[job.take].at
    && (NulFree(t.host) && NulFree(job.tasks[0].host) ==> t.host == job.tasks[0].host)
    && ReadInOrder(h, job, job.work.value)
    && var w, request := job.work.value, OutcomeOf(job).request;
       || t.fingerprint != Fingerprint(w.setting) || t.fingerprint != Fingerprint(w.client)
       || t.bucket != w.setting.bucket
       || (request.Some? && t in request.value.tasks && w.response != NoAnswer && t.key !in w.response.errorKeys)
  }

  lemma CompletedTaskIsDeletedBy(h: History, j: nat, t: Task)
    requires HistoryOk(h) && j < |h.jobs| && h.jobs[j].work.Some? && t in CompletedBy(h.jobs[j])
    ensures DeletedBy(h, h.jobs[j], t)
  {
    var job := h.jobs[j];
    var w := job.work.value;
    assert JobOk(h, job);
    OutcomeConserves(job.tasks, Some(w.setting), Some(w.client), w.response);
    assert t in multiset(OutcomeOf(job).completed) + multiset(OutcomeOf(job).failed);
    CompletedIffStaleOrDeleted(job.tasks, Some(w.setting), Some(w.client), w.response, t);
    JobTaskIsTaken(h, job, t);
  }

  lemma JobTaskIsTaken(h: History, job: Job, t: Task)
    requires HistoryOk(h) && FromTake(h.takes, job.take, job.tasks) && t in job.tasks
    ensures t in h.takes[job.take].tasks && t.expireAt <= h.takes[job.take].at
    ensures NulFree(t.host) && NulFree(job.tasks[0].host) ==> t.host == job.tasks[0].host
    ensures |job.tasks| <= BATCH_SIZE
  {
    var taken := h.takes[job.take];
    assert TakeOk(taken);
    GroupMembers(taken.tasks, GroupKey(job.tasks[0]));
    if NulFree(t.host) && NulFree(job.tasks[0].host) {
      GroupHasOneTarget(taken.tasks, GroupKey(job.tasks[0]), t, job.tasks[0]);
    }
  }

  /** The request of a job goes where its tasks say, and is no larger than a
      take. */
  lemma RequestOfJobIsOnTarget(h: History, j: nat)
    requires HistoryOk(h) && j < |h.jobs|
    ensures var o := OutcomeOf(h.jobs[j]);
            o.Processed? && o.request.Some? ==> OnTarget(o.request.value) && |o.request.value.objects| <= BATCH_SIZE
  {
    var job := h.jobs[j];
    assert JobOk(h, job);
    JobTaskIsTaken(h, job, job.tasks[0]);
    if job.work.Some? {
      var w := job.work.value;
      RequestIsOnTarget(job.tasks, Some(w.setting), Some(w.client), w.response);
    }
  }
}
