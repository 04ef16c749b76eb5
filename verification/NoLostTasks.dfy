/** No recorded task is lost: whatever is in the records, someone still has it. */
module NoLostTasks {
  import opened ExpirationLog
  import opened ExpirationSystem
  import WB = WriteBehind

  /** The records according to the accepted log. */
  function Recorded(s: Sys): Db {
    Apply(s.run.base, Flatten(s.run.log))
  }

  ghost predicate HeldBySaver(s: Sys, t: Task) {
    exists i :: 0 <= i < |s.enqueuers| && s.enqueuers[i].Saved? && t in s.enqueuers[i].tasks
  }

  /** Someone still has the task: an enqueuer that is about to push it, the heap,
      the scheduler, a worker, or the list of logged failures. */
  ghost predicate Tracked(s: Sys, t: Task) {
    InFlight(s, t) > 0 || HeldBySaver(s, t)
  }

  ghost predicate RecordsTracked(s: Sys) {
    forall k | k in Recorded(s) :: Tracked(s, Recorded(s)[k])
  }

  lemma SubmitAppends(s: Sys, op: Operation, tasks: seq<Task>)
    requires WB.Enabled(s.run, WB.Submit(op, tasks))
    ensures var run' := WB.Next(s.run, WB.Submit(op, tasks));
            && Apply(run'.base, Flatten(run'.log)) == Apply(Recorded(s), Events(op, tasks))
            && Flatten(run'.log) == Flatten(s.run.log) + Events(op, tasks)
  {
    FlattenOne(Events(op, tasks));
    FlattenAppend(s.run.log, [Events(op, tasks)]);
    ApplyAppend(s.run.base, Flatten(s.run.log), Events(op, tasks));
  }

  /** A step that is neither a push nor a restart leaves the savers alone. */
  lemma SaversStay(s: Sys, a: Action, i: nat)
    requires Enabled(s, a) && !a.Push? && !a.Restart? && i < |s.enqueuers| && s.enqueuers[i].Saved?
    ensures i < |Next(s, a).enqueuers| && Next(s, a).enqueuers[i] == s.enqueuers[i]
  {
    hide CanSchedule, CanWork, ScheduleNext, WorkNext;
    if Schedules(a) {
      ScheduleLeavesEnqueuersAlone(s, a);
    } else if Works(a) {
      WorkLeavesEnqueuersAlone(s, a);
    }
  }

  lemma ScheduleLeavesEnqueuersAlone(s: Sys, a: Action)
    requires Schedules(a) && CanSchedule(s, a)
    ensures ScheduleNext(s, a).enqueuers == s.enqueuers && ScheduleNext(s, a).run == s.run
  {
  }

  lemma WorkLeavesEnqueuersAlone(s: Sys, a: Action)
    requires Works(a) && CanWork(s, a)
    ensures WorkNext(s, a).enqueuers == s.enqueuers && (!a.Complete? ==> WorkNext(s, a).run == s.run)
  {
  }

  lemma SaversMove(s: Sys, a: Action, t: Task)
    requires Enabled(s, a) && !a.Push? && !a.Restart? && HeldBySaver(s, t)
    ensures HeldBySaver(Next(s, a), t)
  {
    hide Enabled, Next;
    var i :| 0 <= i < |s.enqueuers| && s.enqueuers[i].Saved? && t in s.enqueuers[i].tasks;
    SaversStay(s, a, i);
  }

  lemma SaveKeepsTracked(s: Sys, tasks: seq<Task>)
    requires RecordsTracked(s) && Enabled(s, Save(tasks))
    ensures RecordsTracked(Next(s, Save(tasks)))
  {
    var s' := Next(s, Save(tasks));
    SubmitAppends(s, Put, tasks);
    forall k | k in Recorded(s')
      ensures Tracked(s', Recorded(s')[k])
    {
      var t := Recorded(s')[k];
      PutsRecord(Recorded(s), tasks, k);
      if t in tasks {
        assert s'.enqueuers[|s.enqueuers|] == Saved(tasks);
      } else {
        MovesConserve(s, Save(tasks), t);
        if HeldBySaver(s, t) {
          SaversMove(s, Save(tasks), t);
        }
      }
    }
  }

  lemma PushKeepsTracked(s: Sys, i: nat)
    requires RecordsTracked(s) && Enabled(s, Push(i))
    ensures RecordsTracked(Next(s, Push(i)))
  {
    var s' := Next(s, Push(i));
    forall k | k in Recorded(s')
      ensures Tracked(s', Recorded(s')[k])
    {
      var t := Recorded(s')[k];
      assert k in Recorded(s) && Recorded(s)[k] == t;
      assert InFlight(s', t) == InFlight(s, t) + multiset(s.enqueuers[i].tasks)[t];
      if t !in s.enqueuers[i].tasks && InFlight(s, t) == 0 {
        var j :| 0 <= j < |s.enqueuers| && s.enqueuers[j].Saved? && t in s.enqueuers[j].tasks;
        assert s'.enqueuers[j] == s.enqueuers[j];
      }
    }
  }

  lemma CompleteErases(s: Sys, w: nat)
    requires Enabled(s, Complete(w))
    ensures Recorded(Next(s, Complete(w))) ==
            Recorded(s) - (set i | 0 <= i < |s.workers[w].tasks| :: TaskKey(s.workers[w].tasks[i]))
  {
    var tasks := s.workers[w].tasks;
    if tasks != [] {
      SubmitAppends(s, Delete, tasks);
      DeletesErase(Recorded(s), tasks);
    }
  }

  /** Completing a task erases its record with it, whichever task is recorded
      under that key by then. */
  lemma CompleteKeepsTracked(s: Sys, w: nat)
    requires RecordsTracked(s) && Keyed(s.run.base) && Enabled(s, Complete(w))
    ensures RecordsTracked(Next(s, Complete(w)))
  {
    var s' := Next(s, Complete(w));
    var tasks := s.workers[w].tasks;
    CompleteErases(s, w);
    ApplyKeepsKeyed(s.run.base, Flatten(s.run.log));
    forall k | k in Recorded(s')
      ensures Tracked(s', Recorded(s')[k])
    {
      var t := Recorded(s')[k];
      assert k in Recorded(s) && Recorded(s)[k] == t && TaskKey(t) == k;
      assert t !in tasks;
      WorkerChanges(s.workers, w, Idle, t);
      if HeldBySaver(s, t) {
        SaversMove(s, Complete(w), t);
      }
    }
  }

  lemma {:induction false} RestartRebuilds(s: Sys, cut: nat, powerLoss: bool)
    requires Enabled(s, Restart(cut, powerLoss))
    ensures RecordsTracked(Next(s, Restart(cut, powerLoss)))
    ensures Recorded(Next(s, Restart(cut, powerLoss))) == Next(s, Restart(cut, powerLoss)).run.s.db
  {
    var s' := Next(s, Restart(cut, powerLoss));
    forall k | k in Recorded(s')
      ensures Tracked(s', Recorded(s')[k])
    {
      assert s'.run.s.db[k] in s'.run.s.db.Values;
    }
  }

  lemma OthersLeaveStoreAlone(s: Sys, a: Action)
    requires Enabled(s, a) && !a.Save? && !a.Complete? && !a.Writer? && !a.Restart?
    ensures Next(s, a).run == s.run
  {
    hide CanSchedule, CanWork, ScheduleNext, WorkNext;
    if Schedules(a) {
      ScheduleLeavesEnqueuersAlone(s, a);
    } else if Works(a) {
      WorkLeavesEnqueuersAlone(s, a);
    }
  }

  lemma WriterStep(s: Sys, wa: WB.Action)
    requires Enabled(s, Writer(wa))
    ensures WB.Enabled(s.run, wa) && IsWriter(wa) && Next(s, Writer(wa)).run == WB.Next(s.run, wa)
  {
  }

  lemma {:induction false} LogOnlyGrowsBySubmission(s: Sys, a: Action)
    requires Enabled(s, a) && !a.Save? && !a.Complete? && !a.Restart?
    ensures Next(s, a).run.log == s.run.log && Next(s, a).run.base == s.run.base
  {
    hide Enabled, Next, WB.Enabled, WB.Next;
    if a.Writer? {
      WriterStep(s, a.a);
      WB.WriterKeepsLog(s.run, a.a);
    } else {
      OthersLeaveStoreAlone(s, a);
    }
  }

  lemma OtherStepsKeepTracked(s: Sys, a: Action)
    requires RecordsTracked(s) && Enabled(s, a) && Moves(a) && !a.Save?
    ensures RecordsTracked(Next(s, a))
  {
    var s' := Next(s, a);
    LogOnlyGrowsBySubmission(s, a);
    forall t | Tracked(s, t)
      ensures Tracked(s', t)
    {
      MovesConserve(s, a, t);
      if HeldBySaver(s, t) {
        SaversMove(s, a, t);
      }
    }
    assert Recorded(s') == Recorded(s);
    assert forall k | k in Recorded(s) :: Tracked(s, Recorded(s)[k]);
  }

  lemma StepKeepsTracked(s: Sys, a: Action)
    requires RecordsTracked(s) && Keyed(s.run.base) && Enabled(s, a)
    ensures RecordsTracked(Next(s, a))
  {
    hide Enabled, Next, RecordsTracked;
    if a.Save? {
      SaveKeepsTracked(s, a.saved);
    } else if a.Push? {
      PushKeepsTracked(s, a.i);
    } else if a.Complete? {
      CompleteKeepsTracked(s, a.w);
    } else if a.Restart? {
      RestartRebuilds(s, a.cut, a.powerLoss);
    } else {
      OtherStepsKeepTracked(s, a);
    }
  }
}
