/** A sleeping scheduler cannot miss an earlier deadline. */
module WakeUps {
  import opened Options
  import opened ExpirationLog
  import opened ExpirationQueue
  import opened ExpirationSystem

  ghost predicate SomeonePushed(s: Sys) {
    exists i :: 0 <= i < |s.enqueuers| && s.enqueuers[i].Pushed?
  }

  ghost predicate NothingBefore(heap: multiset<Task>, due: Option<int>) {
    if due.None? then heap == multiset{} else forall t | t in heap :: due.value <= t.expireAt
  }

  /** The scheduler has read the next deadline and does not yet, or no longer,
      look at the heap. */
  predicate Resting(sched: Scheduler) {
    sched.Parked? || sched.Waiting?
  }

  /** While the scheduler rests, nothing in the heap expires before the deadline
      it read, or the wake channel is full, or an enqueuer that has pushed is about
      to signal. */
  ghost predicate NoLostWakeUp(s: Sys) {
    Resting(s.sched) ==> NothingBefore(s.heap, s.sched.due) || s.wake || SomeonePushed(s)
  }

  /** Time does not run backwards: nothing happened later than now. */
  predicate ClockOk(s: Sys) {
    && (s.sched.Captured? ==> s.sched.at <= s.now)
    && (forall i | 0 <= i < |s.hist.takes| :: s.hist.takes[i].at <= s.now)
    && (Resting(s.sched) ==> s.sched.since <= s.now)
    && (s.sched.Waiting? ==> s.sched.since <= s.sched.armed <= s.now)
  }

  /** Steps after which the scheduler does not rest. */
  predicate EndsRest(a: Action) {
    || a.Capture? || a.Take? || a.WakeUp? || a.Timer? || a.Dispatch? || a.DispatchFails? || a.DispatchEnds?
    || a.Restart?
  }

  lemma RestEnds(s: Sys, a: Action)
    requires Enabled(s, a) && EndsRest(a)
    ensures !Resting(Next(s, a).sched)
  {
  }

  /** Steps that are no concern of the scheduler. */
  predicate Aside(a: Action) {
    Works(a) || a.Clock? || a.Configure? || a.Writer?
  }

  ghost predicate SameQueue(s: Sys, s': Sys) {
    s'.sched == s.sched && s'.heap == s.heap && s'.enqueuers == s.enqueuers && s'.wake == s.wake
  }

  lemma WorkLeavesQueueAlone(s: Sys, a: Action)
    requires Works(a) && CanWork(s, a)
    ensures SameQueue(s, WorkNext(s, a))
  {
  }

  lemma AsideLeavesQueueAlone(s: Sys, a: Action)
    requires Enabled(s, a) && Aside(a)
    ensures SameQueue(s, Next(s, a))
  {
    hide CanWork, WorkNext;
    if Works(a) {
      WorkLeavesQueueAlone(s, a);
    }
  }

  lemma StepKeepsWakeUp(s: Sys, a: Action)
    requires NoLostWakeUp(s) && Enabled(s, a)
    ensures NoLostWakeUp(Next(s, a))
  {
    hide Enabled, Next;
    if EndsRest(a) {
      RestEnds(s, a);
    } else if Aside(a) {
      AsideLeavesQueueAlone(s, a);
    } else {
      EnqueuingKeepsWakeUp(s, a);
    }
  }

  lemma EnqueuingKeepsWakeUp(s: Sys, a: Action)
    requires NoLostWakeUp(s) && Enabled(s, a) && !EndsRest(a) && !Aside(a)
    ensures NoLostWakeUp(Next(s, a))
  {
    match a
    case Push(i) => assert Next(s, a).enqueuers[i].Pushed?;
    case Save(tasks) =>
      if SomeonePushed(s) {
        var i :| 0 <= i < |s.enqueuers| && s.enqueuers[i].Pushed?;
        assert Next(s, a).enqueuers[i].Pushed?;
      }
    case Signal(i) =>
    case Sleep(next) =>
    case Arm =>
  }

  lemma ScheduleKeepsClock(s: Sys, a: Action)
    requires ClockOk(s) && Schedules(a) && CanSchedule(s, a)
    ensures ClockOk(ScheduleNext(s, a)) && ScheduleNext(s, a).now == s.now
  {
  }

  lemma WorkTakesNoTime(s: Sys, a: Action)
    requires Works(a) && CanWork(s, a)
    ensures WorkNext(s, a).now == s.now && WorkNext(s, a).hist.takes == s.hist.takes
  {
  }

  lemma StepKeepsClock(s: Sys, a: Action)
    requires ClockOk(s) && Enabled(s, a)
    ensures ClockOk(Next(s, a)) && s.now <= Next(s, a).now
  {
    hide CanSchedule, CanWork, ScheduleNext, WorkNext;
    if Schedules(a) {
      ScheduleKeepsClock(s, a);
    } else if Works(a) {
      WorkTakesNoTime(s, a);
      WorkLeavesQueueAlone(s, a);
    }
  }

  lemma OneStep(s: Sys, a: Action)
    requires Enabled(s, a)
    ensures Executable(s, [a]) && Execute(s, [a]) == Next(s, a)
  {
    hide Enabled, Next;
    ExecuteOneMore(s, [], a);
    assert [] + [a] == [a];
  }

  lemma TwoSteps(s: Sys, a: Action, b: Action)
    requires Enabled(s, a) && Enabled(Next(s, a), b)
    ensures Executable(s, [a, b]) && Execute(s, [a, b]) == Next(Next(s, a), b)
  {
    hide Enabled, Next;
    OneStep(s, a);
    ExecuteOneMore(s, [a], b);
    assert [a] + [b] == [a, b];
  }

  /** The timer never fires before the deadline. */
  lemma TimerIsNotEarly(s: Sys)
    requires ClockOk(s) && Enabled(s, Timer)
    ensures s.sched.due.Some? && s.sched.due.value <= s.now
  {
  }

  /** How long the scheduler took from reading the deadline to starting its
      timer. */
  function Lag(sched: Scheduler): int
    requires sched.Waiting?
  {
    sched.armed - sched.since
  }

  /** A sleeping scheduler with a due task in its heap can always be woken: by
      the token in the wake channel, by an enqueuer's next step followed by that
      token, or by its own timer, which is late by no more than the time it took
      to start it. */
  lemma {:induction false} SleeperWithDueTaskWakes(s: Sys, t: Task) returns (actions: seq<Action>)
    requires NoLostWakeUp(s) && ClockOk(s) && s.sched.Waiting?
    requires t in s.heap && t.expireAt <= s.now
    ensures Executable(s, actions) && |actions| <= 2
    ensures forall i | 0 <= i < |actions| ::
              actions[i].Timer? || actions[i].WakeUp? || actions[i].Signal? ||
              (actions[i].Clock? && actions[i].time <= s.now + Lag(s.sched))
    ensures Execute(s, actions).sched.Ready?
  {
    if s.wake {
      OneStep(s, WakeUp);
      actions := [WakeUp];
    } else if i :| 0 <= i < |s.enqueuers| && s.enqueuers[i].Pushed? {
      TwoSteps(s, Signal(i), WakeUp);
      actions := [Signal(i), WakeUp];
    } else if Fires(s.sched) <= s.now {
      OneStep(s, Timer);
      actions := [Timer];
    } else {
      TwoSteps(s, Clock(Fires(s.sched)), Timer);
      actions := [Clock(Fires(s.sched)), Timer];
    }
  }
}
