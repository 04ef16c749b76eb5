/** Every run of the expiration store, with crashes and failed transactions and
    syncs, against the log of batches it accepted. */
module WriteBehind {
  import opened Options
  import opened ExpirationLog
  import opened ExpirationStore

  /** The store beside its history: `log` holds the accepted batches that no
      crash has lost, and the positions in it say how far the writer has
      received, committed and synced, and how much was found when the store was
      last opened. `cuts` are the committed positions that a crash may fall back
      to. */
  datatype Run = Run(
    s: Store, base: Db, log: seq<Batch>,
    received: nat, committed: nat, synced: nat, found: nat, cuts: set<nat>)

  datatype Action =
    | Submit(op: Operation, tasks: seq<Task>)
    | Receive(txOk: bool)
    | Tick(txOk: bool, syncOk: bool)
    | CloseStore
    | Drain(txOk: bool, syncOk: bool)
    | Crash(cut: nat, powerLoss: bool)

  function Initial(base: Db): Run {
    Run(Opened(base, base), base, [], 0, 0, 0, 0, {0})
  }

  predicate Enabled(r: Run, a: Action) {
    match a
    case Submit(_, tasks) => !r.s.closed && |r.s.ch| < WRITE_QUEUE_SIZE && tasks != [] && Acceptable(tasks)
    case Receive(_) => !r.s.done && r.s.ch != []
    case Tick(_, _) => !r.s.done
    case CloseStore => !r.s.closed
    case Drain(_, _) => r.s.closed && !r.s.done && r.s.ch == []
    case Crash(cut, _) => cut in r.cuts && cut <= |r.log|
  }

  /** The history beside a flush of the store that had `pending` to write. */
  function AfterFlush(r: Run, pending: seq<Event>, txOk: bool): Run {
    if pending != [] && txOk then r.(committed := r.received, cuts := r.cuts + {r.received}) else r
  }

  function AfterSync(r: Run, dirty: bool, syncOk: bool): Run {
    if dirty && syncOk then r.(synced := r.committed, cuts := {r.committed}) else r
  }

  /** The store opened again after a crash that lost every batch from `cut` on.
      After a power loss what is found was read from the disk; after the process
      alone has died it may still wait in the system's cache, and nothing says so:
      the new store is not dirty. */
  function Reopened(r: Run, cut: nat, powerLoss: bool): Run
    requires cut <= |r.log|
  {
    var db := Apply(r.base, Flatten(r.log[..cut]));
    if powerLoss then Run(Opened(db, db), r.base, r.log[..cut], cut, cut, cut, cut, {cut})
    else
      Run(Opened(db, r.s.durable), r.base, r.log[..cut], cut, cut, r.synced, cut, set k | k in r.cuts && k <= cut)
  }

  function Next(r: Run, a: Action): Run
    requires Enabled(r, a)
  {
    match a
    case Submit(op, tasks) => r.(s := Submitted(r.s, Events(op, tasks)), log := r.log + [Events(op, tasks)])
    case Receive(txOk) =>
      var pending := r.s.pending + r.s.ch[0];
      var r1 := r.(received := r.received + 1);
      (if |pending| >= WRITE_BATCH_SIZE then AfterFlush(r1, pending, txOk) else r1).(s := Received(r.s, txOk))
    case Tick(txOk, syncOk) =>
      var r1 := AfterFlush(r, r.s.pending, txOk);
      var s1 := Flushed(r.s, txOk);
      (if s1.pending == [] then AfterSync(r1, s1.dirty, syncOk) else r1).(s := Ticked(r.s, txOk, syncOk))
    case CloseStore => r.(s := r.s.(closed := true))
    case Drain(txOk, syncOk) =>
      AfterSync(AfterFlush(r, r.s.pending, txOk), Flushed(r.s, txOk).dirty, syncOk).(s := Drained(r.s, txOk, syncOk))
    case Crash(cut, powerLoss) => Reopened(r, cut, powerLoss)
  }

  predicate Executable(r: Run, actions: seq<Action>)
    decreases |actions|, 0
  {
    actions == [] ||
    (Executable(r, actions[..|actions| - 1]) && Enabled(Execute(r, actions[..|actions| - 1]), actions[|actions| - 1]))
  }

  function Execute(r: Run, actions: seq<Action>): Run
    requires Executable(r, actions)
    decreases |actions|, 1
  {
    if actions == [] then r else Next(Execute(r, actions[..|actions| - 1]), actions[|actions| - 1])
  }

  /** The database after the first n batches of the log. */
  function At(r: Run, n: nat): Db
    requires n <= |r.log|
  {
    Apply(r.base, Flatten(r.log[..n]))
  }

  ghost predicate Ordered(r: Run) {
    && r.synced <= r.committed <= r.received <= |r.log|
    && r.found <= r.committed
    && r.synced in r.cuts && r.committed in r.cuts
    && (forall k | k in r.cuts :: r.synced <= k <= r.committed)
  }

  /** What the store holds, read off the log. */
  ghost predicate Contents(r: Run)
    requires Ordered(r)
  {
    && (forall i | 0 <= i < |r.log| :: r.log[i] != [])
    && r.s.ch == r.log[r.received..]
    && r.s.pending == Flatten(r.log[r.committed..r.received])
    && r.s.db == At(r, r.committed)
    && r.s.durable == At(r, r.synced)
  }

  ghost predicate Flags(r: Run) {
    && (r.s.dirty <==> r.synced < r.committed && r.found < r.committed)
    && (r.s.writerErr == None || r.s.writerErr == Some(CommitFailed) || r.s.writerErr == Some(SyncFailed))
    && (r.s.writerErr == Some(CommitFailed) ==> r.s.pending != [])
    && (r.s.writerErr == Some(SyncFailed) ==> r.s.dirty)
    && |r.s.ch| <= WRITE_QUEUE_SIZE
    && (r.s.done ==> r.s.closed && r.s.ch == [])
  }

  ghost predicate Inv(r: Run) {
    Ordered(r) && Contents(r) && Flags(r)
  }

  /** Committing the batches between two positions moves the database from one
      position of the log to the other. */
  lemma CommitAdvances(r: Run, i: nat, j: nat)
    requires i <= j <= |r.log|
    ensures Apply(At(r, i), Flatten(r.log[i..j])) == At(r, j)
  {
    assert r.log[..j] == r.log[..i] + r.log[i..j];
    FlattenAppend(r.log[..i], r.log[i..j]);
    ApplyAppend(r.base, Flatten(r.log[..i]), Flatten(r.log[i..j]));
  }

  lemma ReceiveExtends(r: Run)
    requires Inv(r) && r.s.ch != []
    ensures r.s.pending + r.s.ch[0] == Flatten(r.log[r.committed..r.received + 1])
    ensures r.s.ch[1..] == r.log[r.received + 1..]
  {
    FlattenOne(r.s.ch[0]);
    FlattenAppend(r.log[r.committed..r.received], [r.s.ch[0]]);
    assert r.log[r.committed..r.received + 1] == r.log[r.committed..r.received] + [r.s.ch[0]];
  }

  lemma EmptySuffix(r: Run, n: nat)
    requires n <= |r.log|
    ensures Flatten(r.log[n..n]) == []
  {
    assert r.log[n..n] == [];
  }

  lemma PendingIsReceived(r: Run)
    requires Inv(r) && r.s.pending != []
    ensures r.committed < r.received
  {
    EmptySuffix(r, r.committed);
  }

  function Committed(r: Run): Run {
    r.(s := Flushed(r.s, true), committed := r.received, cuts := r.cuts + {r.received})
  }

  /** A commit of the pending events brings the database to the received
      position. */
  lemma CommitKeepsContents(r: Run)
    requires Ordered(r) && Contents(r) && r.s.pending != [] && Ordered(Committed(r))
    ensures Contents(Committed(r))
  {
    CommitAdvances(r, r.committed, r.received);
    EmptySuffix(r, r.received);
  }

  lemma CommitKeepsInv(r: Run)
    requires Inv(r) && r.s.pending != []
    ensures Inv(Committed(r))
  {
    PendingIsReceived(r);
    assert Ordered(Committed(r));
    CommitKeepsContents(r);
  }

  lemma FlushKeepsInv(r: Run, txOk: bool)
    requires Inv(r)
    ensures Inv(AfterFlush(r, r.s.pending, txOk).(s := Flushed(r.s, txOk)))
  {
    if r.s.pending != [] && txOk {
      CommitKeepsInv(r);
    }
  }

  lemma SyncKeepsInv(r: Run, syncOk: bool)
    requires Inv(r)
    ensures Inv(AfterSync(r, r.s.dirty, syncOk).(s := Synced(r.s, syncOk)))
  {
  }

  lemma SubmitKeepsInv(r: Run, op: Operation, tasks: seq<Task>)
    requires Inv(r) && Enabled(r, Submit(op, tasks))
    ensures Inv(Next(r, Submit(op, tasks)))
  {
    var r' := Next(r, Submit(op, tasks));
    assert r'.log[r.committed..r.received] == r.log[r.committed..r.received];
    assert r'.log[..r.committed] == r.log[..r.committed] && r'.log[..r.synced] == r.log[..r.synced];
    assert r'.log[r.received..] == r.log[r.received..] + [Events(op, tasks)];
  }

  /** The run whose writer has taken the oldest batch and not flushed yet. */
  function Taken(r: Run): Run
    requires r.s.ch != []
  {
    r.(s := r.s.(ch := r.s.ch[1..], pending := r.s.pending + r.s.ch[0]), received := r.received + 1)
  }

  lemma TakingKeepsInv(r: Run)
    requires Inv(r) && r.s.ch != []
    ensures Inv(Taken(r)) && Taken(r).s.pending != []
  {
    ReceiveExtends(r);
    assert r.log[r.received..][0] == r.log[r.received];
  }

  lemma ReceiveKeepsInv(r: Run, txOk: bool)
    requires Inv(r) && Enabled(r, Receive(txOk))
    ensures Inv(Next(r, Receive(txOk)))
  {
    TakingKeepsInv(r);
    if |Taken(r).s.pending| >= WRITE_BATCH_SIZE {
      FlushKeepsInv(Taken(r), txOk);
    }
  }

  lemma TickKeepsInv(r: Run, txOk: bool, syncOk: bool)
    requires Inv(r) && Enabled(r, Tick(txOk, syncOk))
    ensures Inv(Next(r, Tick(txOk, syncOk)))
  {
    FlushKeepsInv(r, txOk);
    SyncKeepsInv(AfterFlush(r, r.s.pending, txOk).(s := Flushed(r.s, txOk)), syncOk);
  }

  lemma DrainKeepsInv(r: Run, txOk: bool, syncOk: bool)
    requires Inv(r) && Enabled(r, Drain(txOk, syncOk))
    ensures Inv(Next(r, Drain(txOk, syncOk)))
  {
    FlushKeepsInv(r, txOk);
    SyncKeepsInv(AfterFlush(r, r.s.pending, txOk).(s := Flushed(r.s, txOk)), syncOk);
  }

  lemma CrashKeepsInv(r: Run, cut: nat, powerLoss: bool)
    requires Inv(r) && Enabled(r, Crash(cut, powerLoss))
    ensures Inv(Next(r, Crash(cut, powerLoss)))
  {
    assert r.log[..cut][..cut] == r.log[..cut];
    assert r.log[..cut][..r.synced] == r.log[..r.synced];
    EmptySuffix(Next(r, Crash(cut, powerLoss)), cut);
  }

  lemma StepKeepsInv(r: Run, a: Action)
    requires Inv(r) && Enabled(r, a)
    ensures Inv(Next(r, a))
  {
    match a
    case Submit(op, tasks) => SubmitKeepsInv(r, op, tasks);
    case Receive(txOk) => ReceiveKeepsInv(r, txOk);
    case Tick(txOk, syncOk) => TickKeepsInv(r, txOk, syncOk);
    case CloseStore =>
    case Drain(txOk, syncOk) => DrainKeepsInv(r, txOk, syncOk);
    case Crash(cut, powerLoss) => CrashKeepsInv(r, cut, powerLoss);
  }

  /** Only submissions and crashes change the log. */
  lemma WriterKeepsLog(r: Run, a: Action)
    requires Enabled(r, a) && !a.Submit? && !a.Crash?
    ensures Next(r, a).log == r.log && Next(r, a).base == r.base
  {
  }

  lemma StepKeepsBase(r: Run, a: Action)
    requires Enabled(r, a)
    ensures Next(r, a).base == r.base
  {
  }

  lemma {:induction false} RunKeepsInv(r: Run, actions: seq<Action>)
    requires Inv(r) && Executable(r, actions)
    ensures Inv(Execute(r, actions))
  {
    if actions != [] {
      RunKeepsInv(r, actions[..|actions| - 1]);
      StepKeepsInv(Execute(r, actions[..|actions| - 1]), actions[|actions| - 1]);
    }
  }

  /** What the store owes its submitters: applying what is pending and then what
      is queued to the committed records gives the initial records with every
      accepted event applied in submission order. */
  ghost predicate RefinesLog(r: Run) {
    Apply(r.s.db, Outstanding(r.s)) == Apply(r.base, Flatten(r.log))
  }

  lemma OutstandingIsSuffix(r: Run)
    requires Inv(r)
    ensures Outstanding(r.s) == Flatten(r.log[r.committed..])
  {
    assert r.log[r.committed..] == r.log[r.committed..r.received] + r.log[r.received..];
    FlattenAppend(r.log[r.committed..r.received], r.log[r.received..]);
  }

  lemma InvRefinesLog(r: Run)
    requires Inv(r)
    ensures RefinesLog(r)
  {
    OutstandingIsSuffix(r);
    LogSplits(r.base, r.log, r.committed);
  }

  /** The recovered batches have reached the disk. */
  predicate FoundIsSynced(r: Run) {
    r.found <= r.synced
  }

  /** Write-behind refinement, over every run from a database on disk. The store
      is dirty exactly when it has committed something since its last sync and
      since it was opened; so a clean store is on disk exactly when what it was
      opened with is. */
  lemma {:induction false} WriteBehindRefinement(base: Db, actions: seq<Action>)
    requires Executable(Initial(base), actions)
    ensures var r := Execute(Initial(base), actions);
            && RefinesLog(r)
            && r.synced <= r.committed <= |r.log|
            && r.s.durable == At(r, r.synced) && r.s.db == At(r, r.committed)
            && (r.s.dirty <==> r.synced < r.committed && r.found < r.committed)
            && (!r.s.dirty ==> (r.synced == r.committed <==> FoundIsSynced(r)))
            && |r.s.ch| <= 256
  {
    InitialInv(base);
    RunKeepsInv(Initial(base), actions);
    InvRefinesLog(Execute(Initial(base), actions));
  }

  lemma InitialInv(base: Db)
    ensures Inv(Initial(base))
  {
    assert Initial(base).log[..0] == [];
  }

  /** A crash after any run leaves the initial records with a prefix of the
      accepted batches applied: at least the synced ones, at most the committed
      ones, and never part of a batch. The store goes on from there. Only a power
      loss settles what is on disk. */
  lemma CrashKeepsWholeBatches(base: Db, actions: seq<Action>, cut: nat, powerLoss: bool)
    requires Executable(Initial(base), actions)
    requires Enabled(Execute(Initial(base), actions), Crash(cut, powerLoss))
    ensures var r := Execute(Initial(base), actions);
            var r' := Next(r, Crash(cut, powerLoss));
            && r.synced <= cut <= r.committed
            && r'.log == r.log[..cut]
            && r'.s == Opened(At(r, cut), if powerLoss then At(r, cut) else At(r, r.synced))
            && RefinesLog(r')
            && (FoundIsSynced(r') <==> powerLoss || cut == r.synced)
  {
    InitialInv(base);
    RunKeepsInv(Initial(base), actions);
    var r := Execute(Initial(base), actions);
    StepKeepsInv(r, Crash(cut, powerLoss));
    InvRefinesLog(Next(r, Crash(cut, powerLoss)));
  }

  lemma ExecuteOneMore(r: Run, actions: seq<Action>, a: Action)
    requires Executable(r, actions) && Enabled(Execute(r, actions), a)
    ensures Executable(r, actions + [a]) && Execute(r, actions + [a]) == Next(Execute(r, actions), a)
  {
    hide Enabled, Next;
    assert (actions + [a])[..|actions + [a]| - 1] == actions;
  }

  /** One more action of a given list. */
  lemma RunStep(r: Run, actions: seq<Action>, k: nat)
    requires k < |actions| && Executable(r, actions[..k]) && Enabled(Execute(r, actions[..k]), actions[k])
    ensures Executable(r, actions[..k + 1])
    ensures Execute(r, actions[..k + 1]) == Next(Execute(r, actions[..k]), actions[k])
  {
    hide Enabled, Next;
    ExecuteOneMore(r, actions[..k], actions[k]);
    assert actions[..k + 1] == actions[..k] + [actions[k]];
  }

  /** One batch committed whose sync failed. */
  lemma UnsyncedCommit(base: Db, b: Batch)
    requires 0 < |b| < WRITE_BATCH_SIZE
    ensures var r := Initial(base).(s := Submitted(Opened(base, base), b), log := [b]);
            && Next(r, Receive(true)) ==
               r.(s := Opened(base, base).(pending := b), received := 1)
            && Next(Next(r, Receive(true)), Tick(true, false)) ==
               Run(Store([], [], Apply(base, b), base, true, Some(SyncFailed), false, false),
                   base, [b], 1, 1, 0, 0, {0, 1})
  {
    assert [] + [b] == [b] && [b][1..] == [] && [] + b == b;
  }

  /** After the process dies the store is not dirty, and yet a power loss can
      still take back what it was opened with: here a batch is committed, its sync
      fails, the process dies, and then the power fails. */
  lemma {:induction false} RecoveredCommitsCanBeLost(base: Db, t: Task) returns (actions: seq<Action>)
    requires ValidTask(t)
    ensures Executable(Initial(base), actions)
    ensures var r := Execute(Initial(base), actions);
            && !r.s.dirty && r.s.pending == [] && r.s.ch == []
            && r.log == [Events(Put, [t])] && r.s.db == Apply(base, Events(Put, [t]))
            && Enabled(r, Crash(0, true)) && Next(r, Crash(0, true)).log == []
  {
    var b, r0 := Events(Put, [t]), Initial(base);
    UnsyncedCommit(base, b);
    var a1 := [Submit(Put, [t])];
    ExecuteOneMore(r0, [], a1[0]);
    assert [] + a1 == a1 && [] + [b] == [b];
    ExecuteOneMore(r0, a1, Receive(true));
    ExecuteOneMore(r0, a1 + [Receive(true)], Tick(true, false));
    ExecuteOneMore(r0, a1 + [Receive(true)] + [Tick(true, false)], Crash(1, false));
    actions := a1 + [Receive(true)] + [Tick(true, false)] + [Crash(1, false)];
    FlattenOne(b);
    assert [b][..1] == [b];
  }

  predicate CrashFree(actions: seq<Action>) {
    forall i | 0 <= i < |actions| :: !actions[i].Crash?
  }

  ghost predicate Grows(r: Run, r': Run) {
    && r.log <= r'.log
    && r.received <= r'.received && r.committed <= r'.committed && r.synced <= r'.synced
  }

  lemma WriterAdvances(r: Run, a: Action)
    requires r.synced <= r.committed <= r.received
    requires Enabled(r, a) && !a.Submit? && !a.Crash?
    ensures var r' := Next(r, a);
            r.received <= r'.received && r.committed <= r'.committed && r.synced <= r'.synced
  {
  }

  lemma StepGrows(r: Run, a: Action)
    requires Inv(r) && Enabled(r, a) && !a.Crash?
    ensures Grows(r, Next(r, a))
  {
    if a.Submit? {
      assert r.log <= r.log + [Events(a.op, a.tasks)];
    } else {
      WriterKeepsLog(r, a);
      WriterAdvances(r, a);
    }
  }

  /** Without a crash the log only grows, and the received, committed and synced
      prefixes of it only get longer. */
  lemma {:induction false} PrefixesGrow(r: Run, actions: seq<Action>)
    requires Inv(r) && Executable(r, actions) && CrashFree(actions)
    ensures Grows(r, Execute(r, actions))
  {
    if actions != [] {
      var front := actions[..|actions| - 1];
      PrefixesGrow(r, front);
      RunKeepsInv(r, front);
      StepGrows(Execute(r, front), actions[|actions| - 1]);
    }
  }

  lemma ClosedStaysClosed(r: Run, a: Action)
    requires Enabled(r, a) && r.s.closed && !a.Crash?
    ensures Next(r, a).s.closed
  {
  }

  /** Once closed, a store accepts nothing more and stays closed until it is
      opened again after a crash. */
  lemma {:induction false} ClosedStoreAcceptsNothing(r: Run, actions: seq<Action>)
    requires r.s.closed && Executable(r, actions) && CrashFree(actions)
    ensures Execute(r, actions).s.closed && Execute(r, actions).log == r.log
  {
    if actions != [] {
      var front, a := actions[..|actions| - 1], actions[|actions| - 1];
      ClosedStoreAcceptsNothing(r, front);
      WriterKeepsLog(Execute(r, front), a);
      ClosedStaysClosed(Execute(r, front), a);
    }
  }

  lemma {:induction false} BaseIsFixed(r: Run, actions: seq<Action>)
    requires Executable(r, actions)
    ensures Execute(r, actions).base == r.base
  {
    if actions != [] {
      BaseIsFixed(r, actions[..|actions| - 1]);
    }
  }

  lemma {:induction false} ExecuteCons(r: Run, a: Action, rest: seq<Action>)
    requires Enabled(r, a) && Executable(Next(r, a), rest)
    ensures Executable(r, [a] + rest) && Execute(r, [a] + rest) == Execute(Next(r, a), rest)
  {
    hide Enabled, Next;
    if rest == [] {
      ExecuteOneMore(r, [], a);
      assert [] + [a] == [a] + rest;
    } else {
      var front, last := rest[..|rest| - 1], rest[|rest| - 1];
      ExecuteCons(r, a, front);
      ExecuteOneMore(r, [a] + front, last);
      assert [a] + rest == [a] + front + [last];
    }
  }

  /** Something is left to commit or to sync, or the recovered batches are on
      disk. */
  predicate CanSettle(r: Run) {
    r.s.ch != [] || r.s.pending != [] || r.s.dirty || FoundIsSynced(r)
  }

  lemma ReceiveKeepsCanSettle(r: Run)
    requires Inv(r) && CanSettle(r) && Enabled(r, Receive(true))
    ensures CanSettle(Next(r, Receive(true)))
  {
    assert r.log[r.received..][0] == r.log[r.received];
  }

  function Receives(n: nat): seq<Action> {
    seq(n, _ => Receive(true))
  }

  /** r' is r after its writer has received the first n queued batches. */
  ghost predicate Draining(r: Run, r': Run, n: nat) {
    && n <= |r.s.ch| && r'.s.ch == r.s.ch[n..]
    && Inv(r') && CanSettle(r') && !r'.s.done
    && r'.log == r.log && r'.base == r.base
  }

  lemma DrainOne(r: Run, r': Run, n: nat)
    requires Draining(r, r', n) && n < |r.s.ch|
    ensures Enabled(r', Receive(true)) && Draining(r, Next(r', Receive(true)), n + 1)
  {
    ReceiveKeepsInv(r', true);
    ReceiveKeepsCanSettle(r');
  }

  lemma OneMoreReceive(n: nat)
    ensures Receives(n + 1) == Receives(n) + [Receive(true)]
  {
  }

  lemma {:induction false} DrainQueue(r: Run, n: nat)
    requires Inv(r) && CanSettle(r) && !r.s.done && n <= |r.s.ch|
    ensures Executable(r, Receives(n)) && Draining(r, Execute(r, Receives(n)), n)
  {
    hide Enabled, Next;
    if n == 0 {
      assert Receives(0) == [];
    } else {
      DrainQueue(r, n - 1);
      DrainOne(r, Execute(r, Receives(n - 1)), n - 1);
      OneMoreReceive(n - 1);
      ExecuteOneMore(r, Receives(n - 1), Receive(true));
    }
  }

  /** Actions of the writer and of Close. */
  predicate WriterOnly(actions: seq<Action>) {
    forall i | 0 <= i < |actions| :: !actions[i].Submit? && !actions[i].Crash?
  }

  function Settling(n: nat): seq<Action> {
    Receives(n) + [Tick(true, true)]
  }

  lemma SettlingStep(r: Run, n: nat)
    requires Executable(r, Receives(n)) && Enabled(Execute(r, Receives(n)), Tick(true, true))
    ensures Executable(r, Settling(n))
    ensures Execute(r, Settling(n)) == Next(Execute(r, Receives(n)), Tick(true, true))
  {
    ExecuteOneMore(r, Receives(n), Tick(true, true));
  }

  lemma DrainEndsSettled(r: Run, r': Run)
    requires Draining(r, r', |r.s.ch|)
    ensures Enabled(r', Tick(true, true))
    ensures Next(r', Tick(true, true)).synced == |r.log|
    ensures Next(r', Tick(true, true)).s.durable == Apply(r.base, Flatten(r.log))
  {
    TickSettles(r');
  }

  lemma TickSettles(r: Run)
    requires Inv(r) && CanSettle(r) && !r.s.done && r.s.ch == []
    ensures Next(r, Tick(true, true)).synced == |r.log|
    ensures Next(r, Tick(true, true)).s.durable == Apply(r.base, Flatten(r.log))
  {
    StepKeepsInv(r, Tick(true, true));
    assert r.received == |r.log|;
    EmptySuffix(r, r.received);
    assert r.log[..|r.log|] == r.log;
  }

  /** Then receiving what is queued and one ticker round, all without errors, put
      every accepted event on disk. */
  lemma {:induction false} WriterCanSettle(r: Run)
    requires Inv(r) && CanSettle(r) && !r.s.done
    ensures Executable(r, Settling(|r.s.ch|))
    ensures Execute(r, Settling(|r.s.ch|)).synced == |r.log|
    ensures Execute(r, Settling(|r.s.ch|)).s.durable == Apply(r.base, Flatten(r.log))
  {
    var n := |r.s.ch|;
    DrainQueue(r, n);
    var r' := Execute(r, Receives(n));
    DrainEndsSettled(r, r');
    SettlingStep(r, n);
  }

  lemma IdleWriterChangesNothing(r: Run, a: Action)
    requires Inv(r) && !CanSettle(r) && Enabled(r, a) && !a.Submit? && !a.Crash?
    ensures !CanSettle(Next(r, a)) && Next(r, a).synced == r.synced && Next(r, a).log == r.log
  {
  }

  /** Otherwise nothing the writer does reaches the disk: a restarted store does
      not sync what it was opened with until it commits something else. */
  lemma {:induction false} RecoveredStaysUnsynced(r: Run, actions: seq<Action>)
    requires Inv(r) && !CanSettle(r) && Executable(r, actions) && WriterOnly(actions)
    ensures !CanSettle(Execute(r, actions)) && Execute(r, actions).log == r.log
    ensures Execute(r, actions).synced == r.synced < |r.log|
  {
    if actions != [] {
      var front := actions[..|actions| - 1];
      RecoveredStaysUnsynced(r, front);
      RunKeepsInv(r, front);
      IdleWriterChangesNothing(Execute(r, front), actions[|actions| - 1]);
    }
  }

  /** The writer alone brings every accepted event to the disk. */
  ghost predicate Settles(r: Run, actions: seq<Action>) {
    WriterOnly(actions) && Executable(r, actions) && Execute(r, actions).synced == |r.log|
  }

  lemma SettlingSettles(r: Run)
    requires Inv(r) && CanSettle(r) && !r.s.done
    ensures Settles(r, Settling(|r.s.ch|))
  {
    WriterCanSettle(r);
  }

  lemma UnsyncedNeverSettles(r: Run, actions: seq<Action>)
    requires Inv(r) && !CanSettle(r)
    ensures !Settles(r, actions)
  {
    if WriterOnly(actions) && Executable(r, actions) {
      RecoveredStaysUnsynced(r, actions);
    }
  }

  /** So it can do that exactly when something is left to commit or to sync, or
      nothing recovered is unsynced. */
  lemma {:induction false} SettlesExactly(r: Run)
    requires Inv(r) && !r.s.done
    ensures (exists actions :: Settles(r, actions)) <==> CanSettle(r)
  {
    if CanSettle(r) {
      SettlingSettles(r);
    } else {
      forall actions
        ensures !Settles(r, actions)
      {
        UnsyncedNeverSettles(r, actions);
      }
    }
  }

  /** While the writer runs, it reports why so much is pending. */
  predicate BacklogReported(s: Store) {
    |s.pending| >= 1000 && !s.done ==> s.writerErr == Some(CommitFailed)
  }

  lemma {:induction false} RunKeepsBacklogReported(r: Run, actions: seq<Action>)
    requires BacklogReported(r.s) && Executable(r, actions)
    ensures BacklogReported(Execute(r, actions).s)
  {
    if actions != [] {
      RunKeepsBacklogReported(r, actions[..|actions| - 1]);
      StepKeepsBacklogReported(Execute(r, actions[..|actions| - 1]), actions[|actions| - 1]);
    }
  }

  lemma StepKeepsBacklogReported(r: Run, a: Action)
    requires BacklogReported(r.s) && Enabled(r, a)
    ensures BacklogReported(Next(r, a).s)
  {
  }

  /** The writer's error is true, over every run: a failed commit is reported
      only while its events are still pending, a failed sync only while a commit is
      unsynced; and as long as the writer runs, 1000 events are pending only after
      a failed commit that it still reports. */
  lemma {:induction false} WriterErrorIsTrue(base: Db, actions: seq<Action>)
    requires Executable(Initial(base), actions)
    ensures var s := Execute(Initial(base), actions).s;
            && (s.writerErr == Some(CommitFailed) ==> s.pending != [])
            && (s.writerErr == Some(SyncFailed) ==> s.dirty)
            && (|s.pending| >= 1000 && !s.done ==> s.writerErr == Some(CommitFailed))
  {
    InitialInv(base);
    RunKeepsBacklogReported(Initial(base), actions);
    RunKeepsInv(Initial(base), actions);
  }

  /** Receiving a batch commits what is pending then exactly when these are at
      least 1000 events and the transaction succeeds. */
  lemma {:induction false} ReceiveCommitsExactly(r: Run, txOk: bool)
    requires Inv(r) && Enabled(r, Receive(txOk))
    ensures var r' := Next(r, Receive(txOk));
            && (r'.committed > r.committed <==> |r.s.pending| + |r.s.ch[0]| >= 1000 && txOk)
            && (r'.committed > r.committed ==> r'.committed == r'.received)
  {
    TakingKeepsInv(r);
    PendingIsReceived(Taken(r));
  }

  /** A tick syncs exactly when nothing is left pending, something was committed
      since the last sync and since opening, and the sync succeeds. */
  lemma {:induction false} TickSyncsExactly(r: Run, txOk: bool, syncOk: bool)
    requires Inv(r) && Enabled(r, Tick(txOk, syncOk))
    ensures var r' := Next(r, Tick(txOk, syncOk));
            r'.synced > r.synced <==> syncOk && (if r.s.pending == [] then r.s.dirty else txOk)
  {
    if r.s.pending != [] {
      PendingIsReceived(r);
    }
  }

  /** If everything committed is on disk when the drain starts, and the writer
      reports no error, then every accepted event is on disk. */
  lemma {:induction false} CleanCloseIsDurable(base: Db, actions: seq<Action>, txOk: bool, syncOk: bool)
    requires Executable(Initial(base), actions)
    requires Enabled(Execute(Initial(base), actions), Drain(txOk, syncOk))
    requires !Execute(Initial(base), actions).s.dirty && FoundIsSynced(Execute(Initial(base), actions))
    ensures var r := Next(Execute(Initial(base), actions), Drain(txOk, syncOk));
            r.s.writerErr == None ==> r.synced == |r.log| && r.s.durable == Apply(base, Flatten(r.log))
  {
    InitialInv(base);
    RunKeepsInv(Initial(base), actions);
    var r := Execute(Initial(base), actions);
    BaseIsFixed(Initial(base), actions);
    StepKeepsInv(r, Drain(txOk, syncOk));
    EmptySuffix(r, r.received);
    assert r.log[..|r.log|] == r.log;
  }

  ghost predicate LogValid(log: seq<Batch>) {
    forall i | 0 <= i < |log| :: forall j | 0 <= j < |log[i]| :: ValidTask(log[i][j].task)
  }

  lemma {:induction false} RunKeepsLogValid(r: Run, actions: seq<Action>)
    requires LogValid(r.log) && Executable(r, actions)
    ensures LogValid(Execute(r, actions).log)
  {
    if actions != [] {
      var front, a := actions[..|actions| - 1], actions[|actions| - 1];
      RunKeepsLogValid(r, front);
      var before := Execute(r, front);
      if !a.Submit? && !a.Crash? {
        WriterKeepsLog(before, a);
      }
    }
  }

  lemma {:induction false} ApplyKeepsValid(db: Db, es: seq<Event>)
    requires AllValid(db) && forall i | 0 <= i < |es| :: ValidTask(es[i].task)
    ensures AllValid(Apply(db, es))
  {
    if es != [] {
      ApplyKeepsValid(db, es[..|es| - 1]);
    }
  }

  lemma {:induction false} FlattenValid(log: seq<Batch>)
    requires LogValid(log)
    ensures forall i | 0 <= i < |Flatten(log)| :: ValidTask(Flatten(log)[i].task)
  {
    if log != [] {
      FlattenValid(log[..|log| - 1]);
    }
  }

  /** Only valid tasks are ever recorded, and each under its own key, so a
      snapshot after any run can fail on reading alone. */
  lemma RecordsStayValid(base: Db, actions: seq<Action>)
    requires AllValid(base) && Keyed(base) && Executable(Initial(base), actions)
    ensures AllValid(Execute(Initial(base), actions).s.db) && Keyed(Execute(Initial(base), actions).s.db)
  {
    WriteBehindRefinement(base, actions);
    RunKeepsLogValid(Initial(base), actions);
    BaseIsFixed(Initial(base), actions);
    var r := Execute(Initial(base), actions);
    var committed := r.log[..r.committed];
    assert r.s.db == Apply(base, Flatten(committed)) && LogValid(committed);
    FlattenValid(committed);
    ApplyKeepsValid(base, Flatten(committed));
    ApplyKeepsKeyed(base, Flatten(committed));
  }
}
