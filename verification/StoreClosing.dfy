/** What a nil result of Close means. Between the call and the writer's last
    flush, the writer receives the batches still queued, each with the usual flush
    at the batch size, and its ticker may fire at any point. */
module StoreClosing {
  import opened Options
  import opened ExpirationLog
  import opened ExpirationStore
  import WB = WriteBehind

  /** Whatever the writer sees in whatever order, and however its transactions
      and syncs end: if it reports no error, everything outstanding is on disk. */
  ghost predicate NilMeansSaved(s: Store) {
    forall steps: seq<WriterStep>, txOk: bool, syncOk: bool | Empties(s, steps) ::
      Drained(Served(s, steps), txOk, syncOk).writerErr == None ==>
        Drained(Served(s, steps), txOk, syncOk).durable == Apply(s.db, Outstanding(s))
  }

  /** What is pending once k more batches are received. */
  function Gathered(s: Store, k: nat): seq<Event>
    requires k <= |s.ch|
  {
    s.pending + Flatten(s.ch[..k])
  }

  /** At every point where a commit has been or can be made, the events after it
      change nothing; and if there is no event at all, the records are on disk. */
  ghost predicate RestChangesNothing(s: Store) {
    && (s.dirty ==> Apply(s.db, Outstanding(s)) == s.db)
    && (forall k | 0 <= k < |s.ch| && Gathered(s, k) != [] ::
          Apply(s.db, Outstanding(s)) == Apply(s.db, Gathered(s, k)))
    && (!s.dirty && Outstanding(s) == [] ==> s.durable == s.db)
  }

  // ---------- If the rest changes nothing, nil can be trusted ----------

  ghost predicate SafeFor(s: Store, all: Db) {
    RestChangesNothing(s) && Apply(s.db, Outstanding(s)) == all
  }

  /** The store that has taken the oldest batch and not flushed yet. */
  function Taken(s: Store): Store
    requires s.ch != []
  {
    s.(ch := s.ch[1..], pending := s.pending + s.ch[0])
  }

  lemma TakenGathers(s: Store, k: nat)
    requires s.ch != [] && k < |s.ch|
    ensures Gathered(Taken(s), k) == Gathered(s, k + 1)
  {
    FlattenOne(s.ch[0]);
    FlattenAppend([s.ch[0]], s.ch[1..][..k]);
    assert s.ch[..k + 1] == [s.ch[0]] + s.ch[1..][..k];
  }

  lemma AllGathered(s: Store)
    ensures Gathered(s, |s.ch|) == Outstanding(s)
  {
    assert s.ch[..|s.ch|] == s.ch;
  }

  lemma TakenIsSafe(s: Store, all: Db)
    requires SafeFor(s, all) && s.ch != []
    ensures SafeFor(Taken(s), all)
  {
    var s1 := Taken(s);
    AllGathered(s);
    AllGathered(s1);
    TakenGathers(s, |s1.ch|);
    forall k | 0 <= k < |s1.ch| && Gathered(s1, k) != []
      ensures all == Apply(s1.db, Gathered(s1, k))
    {
      TakenGathers(s, k);
    }
  }

  lemma CommittedGathers(s: Store, k: nat)
    requires k <= |s.ch|
    ensures Apply(Flushed(s, true).db, Gathered(Flushed(s, true), k)) == Apply(s.db, Gathered(s, k))
  {
    if s.pending != [] {
      ApplyAppend(s.db, s.pending, Flatten(s.ch[..k]));
      assert Gathered(Flushed(s, true), k) == Flatten(s.ch[..k]);
    }
  }

  lemma GatheredNothing(s: Store)
    ensures Gathered(s, 0) == s.pending
  {
    assert s.ch[..0] == [];
  }

  lemma CommittedIsSafe(s: Store, all: Db)
    requires SafeFor(s, all) && s.pending != []
    ensures SafeFor(Flushed(s, true), all)
  {
    var s1 := Flushed(s, true);
    AllGathered(s);
    AllGathered(s1);
    CommittedGathers(s, |s.ch|);
    GatheredNothing(s);
    if s.ch == [] {
      assert Outstanding(s1) == [];
    }
    forall k | 0 <= k < |s1.ch| && Gathered(s1, k) != []
      ensures all == Apply(s1.db, Gathered(s1, k))
    {
      CommittedGathers(s, k);
      assert Gathered(s, k) != [];
    }
  }

  lemma FlushedIsSafe(s: Store, txOk: bool, all: Db)
    requires SafeFor(s, all)
    ensures SafeFor(Flushed(s, txOk), all)
  {
    if s.pending != [] && txOk {
      CommittedIsSafe(s, all);
    } else {
      assert forall k | 0 <= k < |s.ch| :: Gathered(Flushed(s, txOk), k) == Gathered(s, k);
    }
  }

  lemma SyncedIsSafe(s: Store, syncOk: bool, all: Db)
    requires SafeFor(s, all)
    ensures SafeFor(Synced(s, syncOk), all)
  {
    assert forall k | 0 <= k < |s.ch| :: Gathered(Synced(s, syncOk), k) == Gathered(s, k);
  }

  lemma SteppedIsSafe(s: Store, step: WriterStep, all: Db)
    requires SafeFor(s, all) && (step.Receiving? ==> s.ch != [])
    ensures SafeFor(Stepped(s, step), all)
  {
    match step
    case Receiving(txOk) =>
      TakenIsSafe(s, all);
      FlushedIsSafe(Taken(s), txOk, all);
    case Ticking(txOk, syncOk) =>
      FlushedIsSafe(s, txOk, all);
      SyncedIsSafe(Flushed(s, txOk), syncOk, all);
  }

  lemma {:induction false} ServedIsSafe(s: Store, steps: seq<WriterStep>, all: Db)
    requires SafeFor(s, all) && Serves(s, steps)
    ensures SafeFor(Served(s, steps), all)
    decreases |steps|
  {
    if steps != [] {
      SteppedIsSafe(s, steps[0], all);
      ServedIsSafe(Stepped(s, steps[0]), steps[1..], all);
    }
  }

  /** At the drain, a store whose rest changes nothing reports no error only if
      everything is on disk. */
  lemma DrainIsSafe(s: Store, txOk: bool, syncOk: bool, all: Db)
    requires SafeFor(s, all) && s.ch == []
    ensures Drained(s, txOk, syncOk).writerErr == None ==> Drained(s, txOk, syncOk).durable == all
  {
    FlushedIsSafe(s, txOk, all);
    assert Outstanding(s) == s.pending;
  }

  lemma SafeMeansSaved(s: Store)
    requires RestChangesNothing(s)
    ensures NilMeansSaved(s)
  {
    var all := Apply(s.db, Outstanding(s));
    forall steps: seq<WriterStep>, txOk: bool, syncOk: bool | Empties(s, steps)
      ensures Drained(Served(s, steps), txOk, syncOk).writerErr == None ==>
                Drained(Served(s, steps), txOk, syncOk).durable == all
    {
      ServedIsSafe(s, steps, all);
      DrainIsSafe(Served(s, steps), txOk, syncOk, all);
    }
  }

  // ---------- If it changes something, nil cannot be trusted ----------

  /** A nil result that loses events. */
  ghost predicate Loses(s: Store, steps: seq<WriterStep>, txOk: bool, syncOk: bool) {
    && Empties(s, steps)
    && Drained(Served(s, steps), txOk, syncOk).writerErr == None
    && Drained(Served(s, steps), txOk, syncOk).durable != Apply(s.db, Outstanding(s))
  }

  lemma {:induction false} ServedAppend(s: Store, a: seq<WriterStep>, b: seq<WriterStep>)
    requires Serves(s, a) && Serves(Served(s, a), b)
    ensures Serves(s, a + b) && Served(s, a + b) == Served(Served(s, a), b)
    decreases |a|
  {
    if a == [] {
      assert a + b == b;
    } else {
      ServedAppend(Stepped(s, a[0]), a[1..], b);
      assert (a + b)[1..] == a[1..] + b;
    }
  }

  function Failures(n: nat): seq<WriterStep> {
    seq(n, _ => Receiving(false))
  }

  /** s' is s after n batches were received and nothing was committed. */
  ghost predicate Gathers(s: Store, s': Store, n: nat) {
    && n <= |s.ch| && s'.ch == s.ch[n..] && s'.pending == Gathered(s, n)
    && s'.db == s.db && s'.durable == s.durable && s'.dirty == s.dirty
  }

  lemma GathersOneMore(s: Store, s': Store, n: nat)
    requires 0 < n <= |s.ch| && Gathers(Stepped(s, Receiving(false)), s', n - 1)
    ensures Gathers(s, s', n)
  {
    var s1 := Stepped(s, Receiving(false));
    TakenGathers(s, n - 1);
    assert Gathered(s1, n - 1) == Gathered(Taken(s), n - 1);
    assert s.ch[1..][n - 1..] == s.ch[n..];
  }

  /** Receiving n batches while every transaction fails. */
  lemma {:induction false} FailuresGather(s: Store, n: nat)
    requires n <= |s.ch|
    ensures Serves(s, Failures(n)) && Gathers(s, Served(s, Failures(n)), n)
    decreases n
  {
    if n == 0 {
      GatheredNothing(s);
    } else {
      assert Failures(n)[0] == Receiving(false) && Failures(n)[1..] == Failures(n - 1);
      FailuresGather(Stepped(s, Receiving(false)), n - 1);
      GathersOneMore(s, Served(s, Failures(n)), n);
    }
  }

  lemma DirtyLoses(s: Store)
    requires s.dirty && Apply(s.db, Outstanding(s)) != s.db
    ensures Loses(s, Failures(|s.ch|), false, true)
  {
    FailuresGather(s, |s.ch|);
    AllGathered(s);
  }

  /** A loss later on is a loss from here on. */
  lemma LosesLater(s: Store, a: seq<WriterStep>, b: seq<WriterStep>, txOk: bool, syncOk: bool)
    requires Serves(s, a) && Loses(Served(s, a), b, txOk, syncOk)
    requires Apply(Served(s, a).db, Outstanding(Served(s, a))) == Apply(s.db, Outstanding(s))
    ensures Loses(s, a + b, txOk, syncOk)
  {
    ServedAppend(s, a, b);
  }

  const COMMIT := [Ticking(true, false)]

  lemma CommitServes(s: Store)
    requires s.pending != []
    ensures Serves(s, COMMIT)
    ensures var s' := Served(s, COMMIT);
            s'.dirty && s'.pending == [] && s'.ch == s.ch && s'.db == Apply(s.db, s.pending)
  {
    assert COMMIT[1..] == [];
  }

  /** The pending events are committed, unsynced, and everything after them
      fails. */
  lemma CommitThenLose(s: Store)
    requires s.pending != [] && Apply(s.db, Outstanding(s)) != Apply(s.db, s.pending)
    ensures Loses(s, COMMIT + Failures(|s.ch|), false, true)
  {
    CommitServes(s);
    var s' := Served(s, COMMIT);
    ApplyAppend(s.db, s.pending, Flatten(s.ch));
    assert Outstanding(s') == Flatten(s.ch);
    DirtyLoses(s');
    LosesLater(s, COMMIT, Failures(|s.ch|), false, true);
  }

  lemma GathersKeepOutstanding(s: Store, s': Store, k: nat)
    requires Gathers(s, s', k)
    ensures Outstanding(s') == Outstanding(s) && |s'.ch| == |s.ch| - k
  {
    OutstandingSplits(s, k);
  }

  lemma BoundaryLoses(s: Store, k: nat)
    requires k < |s.ch| && Gathered(s, k) != []
    requires Apply(s.db, Outstanding(s)) != Apply(s.db, Gathered(s, k))
    ensures Loses(s, Failures(k) + (COMMIT + Failures(|s.ch| - k)), false, true)
  {
    FailuresGather(s, k);
    var s' := Served(s, Failures(k));
    GathersKeepOutstanding(s, s', k);
    assert s'.pending == Gathered(s, k) && s'.db == s.db;
    CommitThenLose(s');
    LosesLater(s, Failures(k), COMMIT + Failures(|s.ch| - k), false, true);
  }

  lemma OutstandingSplits(s: Store, k: nat)
    requires k <= |s.ch|
    ensures Outstanding(s) == Gathered(s, k) + Flatten(s.ch[k..])
  {
    assert s.ch == s.ch[..k] + s.ch[k..];
    FlattenAppend(s.ch[..k], s.ch[k..]);
  }

  lemma FlattenedIsEmpty(bs: seq<Batch>)
    requires forall i | 0 <= i < |bs| :: bs[i] != []
    ensures Flatten(bs) == [] <==> bs == []
  {
  }

  lemma NothingOutstanding(s: Store)
    requires Outstanding(s) == [] && forall i | 0 <= i < |s.ch| :: s.ch[i] != []
    ensures s.pending == [] && s.ch == []
  {
    FlattenedIsEmpty(s.ch);
  }

  lemma UnsyncedLoses(s: Store)
    requires !s.dirty && s.ch == [] && s.pending == [] && s.durable != s.db && s.writerErr == None
    ensures Loses(s, [], true, true)
  {
  }

  lemma SavedMeansSafe(s: Store)
    requires NilMeansSaved(s)
    requires (forall i | 0 <= i < |s.ch| :: s.ch[i] != []) && (s.writerErr != None ==> s.pending != [] || s.dirty)
    ensures RestChangesNothing(s)
  {
    if s.dirty && Apply(s.db, Outstanding(s)) != s.db {
      DirtyLoses(s);
    }
    forall k | 0 <= k < |s.ch| && Gathered(s, k) != []
      ensures Apply(s.db, Outstanding(s)) == Apply(s.db, Gathered(s, k))
    {
      if Apply(s.db, Outstanding(s)) != Apply(s.db, Gathered(s, k)) {
        BoundaryLoses(s, k);
      }
    }
    if !s.dirty && Outstanding(s) == [] && s.durable != s.db {
      NothingOutstanding(s);
      UnsyncedLoses(s);
    }
  }

  // ---------- Over every run ----------

  /** The actions of a run that the writer's steps are. */
  function ActionOf(step: WriterStep): WB.Action {
    match step
    case Receiving(txOk) => WB.Receive(txOk)
    case Ticking(txOk, syncOk) => WB.Tick(txOk, syncOk)
  }

  function ActionsOf(steps: seq<WriterStep>): seq<WB.Action> {
    seq(|steps|, i requires 0 <= i < |steps| => ActionOf(steps[i]))
  }

  lemma StepIsAction(r: WB.Run, step: WriterStep)
    requires !r.s.done && (step.Receiving? ==> r.s.ch != [])
    ensures WB.Enabled(r, ActionOf(step)) && WB.Next(r, ActionOf(step)).s == Stepped(r.s, step)
    ensures !WB.Next(r, ActionOf(step)).s.done
  {
  }

  /** Serving the queue is a run of the store. */
  lemma {:induction false} ServedIsRun(r: WB.Run, steps: seq<WriterStep>)
    requires !r.s.done && Serves(r.s, steps)
    ensures WB.Executable(r, ActionsOf(steps)) && WB.Execute(r, ActionsOf(steps)).s == Served(r.s, steps)
    decreases |steps|
  {
    hide WB.Enabled, WB.Next;
    if steps != [] {
      var a := ActionOf(steps[0]);
      assert Serves(Stepped(r.s, steps[0]), steps[1..]);
      StepIsAction(r, steps[0]);
      ServedIsRun(WB.Next(r, a), steps[1..]);
      WB.ExecuteCons(r, a, ActionsOf(steps[1..]));
      assert ActionsOf(steps) == [a] + ActionsOf(steps[1..]);
    }
  }

  /** When a nil result of Close can be trusted: for a store in any reachable
      state, exactly when at every point where a commit has been or can be made
      before the last flush, the events after it change nothing, and an idle
      store has its records on disk. A sync of an earlier commit erases the error
      of a failed last flush, and a store does not sync what it was opened with. */
  lemma {:induction false} CloseGuaranteeIsExact(base: Db, actions: seq<WB.Action>)
    requires WB.Executable(WB.Initial(base), actions) && !WB.Execute(WB.Initial(base), actions).s.done
    ensures var r := WB.Execute(WB.Initial(base), actions);
            && Apply(r.s.db, Outstanding(r.s)) == Apply(base, Flatten(r.log))
            && (NilMeansSaved(r.s) <==> RestChangesNothing(r.s))
  {
    hide WB.Executable, WB.Execute, NilMeansSaved, RestChangesNothing;
    WB.WriteBehindRefinement(base, actions);
    WB.InitialInv(base);
    WB.RunKeepsInv(WB.Initial(base), actions);
    WB.BaseIsFixed(WB.Initial(base), actions);
    var r := WB.Execute(WB.Initial(base), actions);
    if RestChangesNothing(r.s) {
      SafeMeansSaved(r.s);
    }
    if NilMeansSaved(r.s) {
      assert forall i | 0 <= i < |r.s.ch| :: r.s.ch[i] == r.log[r.received + i];
      SavedMeansSafe(r.s);
    }
  }

  /** Two batches are queued and nothing is pending or dirty when the store is
      closed. The first is committed by the ticker, whose sync fails; the last
      flush fails too, but the last sync succeeds. Close finds no error, and the
      second batch is gone. */
  function LosingClose(a: Task, b: Task): seq<WB.Action> {
    [WB.Submit(Put, [a]), WB.Submit(Put, [b]), WB.CloseStore,
     WB.Receive(true), WB.Tick(true, false), WB.Receive(true), WB.Drain(false, true)]
  }

  /** The store before each of the last four actions, and at the end. */
  lemma LosingSteps(base: Db, x: Batch, y: Batch)
    requires 0 < |x| < WRITE_BATCH_SIZE && 0 < |y| < WRITE_BATCH_SIZE
    ensures var s0 := Opened(base, base).(ch := [x, y], closed := true);
            var s1 := Received(s0, true);
            var s2 := Ticked(s1, true, false);
            var s3 := Received(s2, true);
            && s1 == s0.(ch := [y], pending := x)
            && s2 == Store([y], [], Apply(base, x), base, true, Some(SyncFailed), true, false)
            && s3 == s2.(ch := [], pending := y)
            && Drained(s3, false, true) == Store([], y, Apply(base, x), Apply(base, x), false, None, true, true)
  {
    assert [x, y][1..] == [y] && [y][1..] == [] && [] + x == x && [] + y == y;
  }

  lemma QueuedTwo(base: Db, a: Task, b: Task)
    requires ValidTask(a) && ValidTask(b)
    ensures var all, r0 := LosingClose(a, b), WB.Initial(base);
            && WB.Executable(r0, all[..3])
            && WB.Execute(r0, all[..3]) ==
               WB.Run(Opened(base, base).(ch := [Events(Put, [a]), Events(Put, [b])], closed := true),
                      base, [Events(Put, [a]), Events(Put, [b])], 0, 0, 0, 0, {0})
  {
    var all, r0 := LosingClose(a, b), WB.Initial(base);
    assert all[..0] == [];
    WB.RunStep(r0, all, 0);
    WB.RunStep(r0, all, 1);
    WB.RunStep(r0, all, 2);
  }

  /** The run of it once both batches are queued and the store is closed. */
  function LosingRun(base: Db, x: Batch, y: Batch, s: Store, received: nat, committed: nat, synced: nat,
      cuts: set<nat>): WB.Run
  {
    WB.Run(s, base, [x, y], received, committed, synced, 0, cuts)
  }

  function AfterFirst(base: Db, x: Batch, y: Batch): WB.Run {
    LosingRun(base, x, y, Store([y], [], Apply(base, x), base, true, Some(SyncFailed), true, false), 1, 1, 0, {0, 1})
  }

  function AfterLast(base: Db, x: Batch, y: Batch): WB.Run {
    LosingRun(base, x, y, Store([], y, Apply(base, x), Apply(base, x), false, None, true, true), 2, 1, 1, {1})
  }

  lemma CommitsFirst(base: Db, x: Batch, y: Batch)
    requires 0 < |x| < WRITE_BATCH_SIZE && 0 < |y| < WRITE_BATCH_SIZE
    ensures var r0 := LosingRun(base, x, y, Opened(base, base).(ch := [x, y], closed := true), 0, 0, 0, {0});
            && WB.Enabled(r0, WB.Receive(true))
            && WB.Enabled(WB.Next(r0, WB.Receive(true)), WB.Tick(true, false))
            && WB.Next(WB.Next(r0, WB.Receive(true)), WB.Tick(true, false)) == AfterFirst(base, x, y)
  {
    LosingSteps(base, x, y);
  }

  lemma LosesSecond(base: Db, x: Batch, y: Batch)
    requires 0 < |x| < WRITE_BATCH_SIZE && 0 < |y| < WRITE_BATCH_SIZE
    ensures var r0 := AfterFirst(base, x, y);
            && WB.Enabled(r0, WB.Receive(true))
            && WB.Enabled(WB.Next(r0, WB.Receive(true)), WB.Drain(false, true))
            && WB.Next(WB.Next(r0, WB.Receive(true)), WB.Drain(false, true)) == AfterLast(base, x, y)
  {
    LosingSteps(base, x, y);
  }

  lemma FirstCommitted(base: Db, a: Task, b: Task)
    requires ValidTask(a) && ValidTask(b)
    ensures var all, r0 := LosingClose(a, b), WB.Initial(base);
            && WB.Executable(r0, all[..5])
            && WB.Execute(r0, all[..5]) == AfterFirst(base, Events(Put, [a]), Events(Put, [b]))
  {
    hide WB.Enabled, WB.Next;
    var all, r0 := LosingClose(a, b), WB.Initial(base);
    CommitsFirst(base, Events(Put, [a]), Events(Put, [b]));
    QueuedTwo(base, a, b);
    WB.RunStep(r0, all, 3);
    WB.RunStep(r0, all, 4);
  }

  lemma SecondLost(base: Db, a: Task, b: Task)
    requires ValidTask(a) && ValidTask(b)
    ensures var all, r0 := LosingClose(a, b), WB.Initial(base);
            && WB.Executable(r0, all)
            && WB.Execute(r0, all) == AfterLast(base, Events(Put, [a]), Events(Put, [b]))
  {
    hide WB.Enabled, WB.Next;
    var all, r0 := LosingClose(a, b), WB.Initial(base);
    LosesSecond(base, Events(Put, [a]), Events(Put, [b]));
    FirstCommitted(base, a, b);
    WB.RunStep(r0, all, 5);
    WB.RunStep(r0, all, 6);
    assert all[..7] == all;
  }

  lemma {:induction false} CloseCanLoseAnEvent(base: Db, a: Task, b: Task)
    requires ValidTask(a) && ValidTask(b) && TaskKey(a) != TaskKey(b) && TaskKey(b) !in base
    ensures WB.Executable(WB.Initial(base), LosingClose(a, b))
    ensures var r := WB.Execute(WB.Initial(base), LosingClose(a, b));
            && r.s.done && r.s.writerErr == None
            && r.log == [Events(Put, [a]), Events(Put, [b])]
            && TaskKey(b) !in r.s.durable && TaskKey(b) in Apply(base, Flatten(r.log))
  {
    SecondLost(base, a, b);
    LostKey(base, a, b);
  }

  lemma LostKey(base: Db, a: Task, b: Task)
    requires TaskKey(a) != TaskKey(b) && TaskKey(b) !in base
    ensures TaskKey(b) !in Apply(base, Events(Put, [a]))
    ensures TaskKey(b) in Apply(base, Flatten([Events(Put, [a]), Events(Put, [b])]))
  {
    var x, y := Events(Put, [a]), Events(Put, [b]);
    assert x[..0] == [] && y[..0] == [];
    FlattenOne(x);
    assert [x, y][..1] == [x];
    ApplyAppend(base, x, y);
  }
}
