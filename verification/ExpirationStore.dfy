/** The durable store of cache expirations: submitters append batches to a
    bounded channel; one writer gathers them into `pending`, commits them in one
    transaction and syncs the database later. */
module ExpirationStore {
  import opened Options
  import opened ExpirationLog

  const WRITE_BATCH_SIZE := 1000
  const WRITE_QUEUE_SIZE := 256

  datatype StoreError = Closed | InvalidTask | CommitFailed | SyncFailed | ReadFailed | DbCloseFailed

  /** `db` is what a reader sees, `durable` what is certain to be on disk. */
  datatype Store = Store(
    ch: seq<Batch>, pending: seq<Event>, db: Db, durable: Db,
    dirty: bool, writerErr: Option<StoreError>, closed: bool, done: bool)

  /** A store that was just opened over the records found. Nothing is known to
      be dirty then, whether or not they have reached the disk. */
  function Opened(db: Db, durable: Db): Store {
    Store([], [], db, durable, false, None, false, false)
  }

  function Submitted(s: Store, b: Batch): Store {
    s.(ch := s.ch + [b])
  }

  function Flushed(s: Store, txOk: bool): Store {
    if s.pending == [] then s
    else if txOk then s.(db := Apply(s.db, s.pending), pending := [], dirty := true, writerErr := None)
    else s.(writerErr := Some(CommitFailed))
  }

  function Synced(s: Store, syncOk: bool): Store {
    if !s.dirty then s
    else if syncOk then s.(durable := s.db, dirty := false, writerErr := None)
    else s.(writerErr := Some(SyncFailed))
  }

  function Received(s: Store, txOk: bool): Store
    requires s.ch != []
  {
    var s1 := s.(ch := s.ch[1..], pending := s.pending + s.ch[0]);
    if |s1.pending| >= WRITE_BATCH_SIZE then Flushed(s1, txOk) else s1
  }

  function Ticked(s: Store, txOk: bool, syncOk: bool): Store {
    var s1 := Flushed(s, txOk);
    if s1.pending == [] then Synced(s1, syncOk) else s1
  }

  /** The writer's last flush and sync. It finds the channel closed only once it
      has received every batch. */
  function Drained(s: Store, txOk: bool, syncOk: bool): Store
    requires s.ch == []
  {
    Synced(Flushed(s, txOk), syncOk).(done := true)
  }

  /** What the writer can do before that: receive a batch, or follow its ticker. */
  datatype WriterStep = Receiving(txOk: bool) | Ticking(txOk: bool, syncOk: bool)

  function Stepped(s: Store, step: WriterStep): Store
    requires step.Receiving? ==> s.ch != []
  {
    match step
    case Receiving(txOk) => Received(s, txOk)
    case Ticking(txOk, syncOk) => Ticked(s, txOk, syncOk)
  }

  predicate Serves(s: Store, steps: seq<WriterStep>)
    decreases |steps|
  {
    steps == [] ||
    ((steps[0].Receiving? ==> s.ch != []) && Serves(Stepped(s, steps[0]), steps[1..]))
  }

  function Served(s: Store, steps: seq<WriterStep>): Store
    requires Serves(s, steps)
    decreases |steps|
  {
    if steps == [] then s else Served(Stepped(s, steps[0]), steps[1..])
  }

  /** The steps take everything out of the channel. */
  predicate Empties(s: Store, steps: seq<WriterStep>) {
    Serves(s, steps) && Served(s, steps).ch == []
  }

  /** Everything accepted and not yet committed, in order. */
  function Outstanding(s: Store): seq<Event> {
    s.pending + Flatten(s.ch)
  }

  predicate Acceptable(tasks: seq<Task>) {
    forall t | t in tasks :: ValidTask(t)
  }

  ghost predicate AllValid(db: Db) {
    forall k | k in db :: ValidTask(db[k])
  }

  ghost function RecordsAt(db: Db, ks: set<string>): set<Task>
    requires ks <= db.Keys
  {
    set k | k in ks :: db[k]
  }

  lemma OneMoreRecord(db: Db, ks: set<string>, k: string)
    requires Keyed(db) && ks <= db.Keys && k in db && k !in ks
    ensures multiset(RecordsAt(db, ks + {k})) == multiset(RecordsAt(db, ks)) + multiset{db[k]}
  {
    assert RecordsAt(db, ks + {k}) == RecordsAt(db, ks) + {db[k]};
    assert db[k] !in RecordsAt(db, ks);
  }

  class CacheExpirationStore {
    var writeCh: seq<Batch>
    var pending: seq<Event>
    var db: Db
    ghost var durable: Db
    var dirty: bool
    var writerErr: Option<StoreError>
    var closed: bool
    var done: bool
    var closeErr: Option<StoreError>

    ghost function View(): Store
      reads this
    {
      Store(writeCh, pending, db, durable, dirty, writerErr, closed, done)
    }

    constructor (db: Db, ghost durable: Db)
      ensures View() == Opened(db, durable)
    {
      writeCh, pending := [], [];
      this.db, this.durable := db, durable;
      dirty, writerErr, closed, done, closeErr := false, None, false, false, None;
    }

    /** The send waits while the channel is full; here it is called when there
        is room. */
    method Enqueue(events: Batch) returns (err: Option<StoreError>)
      requires closed || |writeCh| < WRITE_QUEUE_SIZE
      modifies this`writeCh
      ensures err == if old(closed) then Some(Closed) else None
      ensures View() == if err == None then Submitted(old(View()), events) else old(View())
    {
      if closed {
        return Some(Closed);
      }
      writeCh := writeCh + [events];
      return None;
    }

    method SubmitTasks(op: Operation, tasks: seq<Task>) returns (err: Option<StoreError>)
      requires closed || |writeCh| < WRITE_QUEUE_SIZE
      modifies this`writeCh
      ensures err == Some(InvalidTask) <==>
              exists t :: t in tasks && (t.host == "" || t.bucket == "" || t.key == "" || t.expireAt == 0)
      ensures err == Some(Closed) <==> err != Some(InvalidTask) && tasks != [] && old(closed)
      ensures err == None || err == Some(InvalidTask) || err == Some(Closed)
      ensures View() == if err == None && tasks != []
                        then Submitted(old(View()), Events(op, tasks)) else old(View())
    {
      if |tasks| == 0 {
        return None;
      }
      var events := [];
      for i := 0 to |tasks|
        invariant events == Events(op, tasks[..i])
        invariant forall j | 0 <= j < i :: ValidTask(tasks[j])
      {
        if !ValidTask(tasks[i]) {
          assert tasks[i] in tasks;
          return Some(InvalidTask);
        }
        events := events + [Event(op, tasks[i])];
      }
      assert tasks[..|tasks|] == tasks;
      err := Enqueue(events);
    }

    method SaveTasks(tasks: seq<Task>) returns (err: Option<StoreError>)
      requires closed || |writeCh| < WRITE_QUEUE_SIZE
      modifies this`writeCh
      ensures err == Some(InvalidTask) <==>
              exists t :: t in tasks && (t.host == "" || t.bucket == "" || t.key == "" || t.expireAt == 0)
      ensures err == Some(Closed) <==> err != Some(InvalidTask) && tasks != [] && old(closed)
      ensures err == None || err == Some(InvalidTask) || err == Some(Closed)
      ensures View() == if err == None && tasks != []
                        then Submitted(old(View()), Events(Put, tasks)) else old(View())
    {
      err := SubmitTasks(Put, tasks);
    }

    method DeleteTasks(tasks: seq<Task>) returns (err: Option<StoreError>)
      requires closed || |writeCh| < WRITE_QUEUE_SIZE
      modifies this`writeCh
      ensures err == Some(InvalidTask) <==>
              exists t :: t in tasks && (t.host == "" || t.bucket == "" || t.key == "" || t.expireAt == 0)
      ensures err == Some(Closed) <==> err != Some(InvalidTask) && tasks != [] && old(closed)
      ensures err == None || err == Some(InvalidTask) || err == Some(Closed)
      ensures View() == if err == None && tasks != []
                        then Submitted(old(View()), Events(Delete, tasks)) else old(View())
    {
      err := SubmitTasks(Delete, tasks);
    }

    /** One transaction: the events are applied to a copy of the records, which
        replaces them only if the transaction succeeds. */
    method WriteEvents(events: seq<Event>, txOk: bool) returns (err: Option<StoreError>)
      modifies this`db
      ensures err == if txOk then None else Some(CommitFailed)
      ensures db == if txOk then Apply(old(db), events) else old(db)
    {
      var tx := db;
      for i := 0 to |events|
        invariant tx == Apply(old(db), events[..i])
      {
        var key := TaskKey(events[i].task);
        assert events[..i + 1][..i] == events[..i];
        match events[i].op {
          case Put => tx := tx[key := events[i].task];
          case Delete => tx := tx - {key};
        }
      }
      assert events[..|events|] == events;
      if !txOk {
        return Some(CommitFailed);
      }
      db := tx;
      return None;
    }

    method FlushPending(txOk: bool)
      modifies this`pending, this`db, this`dirty, this`writerErr
      ensures View() == Flushed(old(View()), txOk)
    {
      if |pending| == 0 {
        return;
      }
      var err := WriteEvents(pending, txOk);
      if err != None {
        writerErr := err;
        return;
      }
      dirty := true;
      writerErr := None;
      pending := [];
    }

    method SyncDb(syncOk: bool) returns (err: Option<StoreError>)
      modifies this`durable, this`dirty, this`writerErr
      ensures err == if dirty && !syncOk then Some(SyncFailed) else None
      ensures View() == if err == None then Synced(old(View()), syncOk) else old(View())
    {
      if !dirty {
        return None;
      }
      if !syncOk {
        return Some(SyncFailed);
      }
      durable := db;
      dirty := false;
      writerErr := None;
      return None;
    }

    /** The writer receives one batch. */
    method WriterReceive(txOk: bool)
      requires |writeCh| > 0 && !done
      modifies this`writeCh, this`pending, this`db, this`dirty, this`writerErr
      ensures View() == Received(old(View()), txOk)
    {
      var events := writeCh[0];
      writeCh := writeCh[1..];
      pending := pending + events;
      if |pending| >= WRITE_BATCH_SIZE {
        FlushPending(txOk);
      }
    }

    /** The writer's sync ticker fires. */
    method WriterTick(txOk: bool, syncOk: bool)
      requires !done
      modifies this`pending, this`db, this`durable, this`dirty, this`writerErr
      ensures View() == Ticked(old(View()), txOk, syncOk)
    {
      FlushPending(txOk);
      if |pending| == 0 {
        var err := SyncDb(syncOk);
        if err != None {
          writerErr := err;
        }
      }
    }

    /** Flushes until nothing is pending or a flush makes no progress. */
    method FlushRest(txOk: bool)
      modifies this`pending, this`db, this`dirty, this`writerErr
      ensures View() == Flushed(old(View()), txOk)
    {
      while |pending| > 0
        invariant View() == old(View()) || (pending == [] && View() == Flushed(old(View()), txOk))
        decreases |pending|
      {
        var before := |pending|;
        FlushPending(txOk);
        if |pending| == before {
          break;
        }
      }
    }

    /** The writer finds the channel closed. By then it has received every batch,
        so ranging over the channel again would add nothing. */
    method WriterDrain(txOk: bool, syncOk: bool)
      requires closed && !done && |writeCh| == 0
      modifies this`pending, this`db, this`durable, this`dirty, this`writerErr, this`done
      ensures View() == Drained(old(View()), txOk, syncOk)
    {
      FlushRest(txOk);
      var err := SyncDb(syncOk);
      if err != None {
        writerErr := err;
      }
      done := true;
    }

    /** The writer's loop after the channel was closed: `steps` says in which order
        it sees the batches and its ticker, and how each transaction and sync
        ends. */
    method WriteLoop(steps: seq<WriterStep>, txOk: bool, syncOk: bool)
      requires closed && !done && Empties(View(), steps)
      modifies this`writeCh, this`pending, this`db, this`durable, this`dirty, this`writerErr, this`done
      ensures View() == Drained(Served(old(View()), steps), txOk, syncOk)
    {
      for i := 0 to |steps|
        invariant closed && !done
        invariant Serves(View(), steps[i..]) && Served(View(), steps[i..]) == Served(old(View()), steps)
      {
        assert steps[i..][0] == steps[i] && steps[i..][1..] == steps[i + 1..];
        match steps[i] {
          case Receiving(ok) => WriterReceive(ok);
          case Ticking(ok, ok') => WriterTick(ok, ok');
        }
      }
      assert steps[|steps|..] == [];
      WriterDrain(txOk, syncOk);
    }

    /** Close stops submissions, waits for the writer to finish and reports the
        writer's error, or the database's own. Called again, it reports the same
        and does nothing. */
    method Close(steps: seq<WriterStep>, txOk: bool, syncOk: bool, dbCloseOk: bool) returns (err: Option<StoreError>)
      requires if closed then done else !done && Empties(View().(closed := true), steps)
      modifies this
      ensures err == closeErr
      ensures old(closed) ==> View() == old(View()) && closeErr == old(closeErr)
      ensures !old(closed) ==>
                && View() == Drained(Served(old(View()).(closed := true), steps), txOk, syncOk)
                && (err == None <==> writerErr == None && dbCloseOk)
    {
      if closed {
        return closeErr;
      }
      closed := true;
      WriteLoop(steps, txOk, syncOk);
      closeErr := if writerErr != None then writerErr else if dbCloseOk then None else Some(DbCloseFailed);
      return closeErr;
    }

    /** Reads every record once. The result lists each of them exactly once. */
    method TasksSnapshot(readOk: bool) returns (err: Option<StoreError>, tasks: seq<Task>)
      requires Keyed(db)
      ensures err == None <==> readOk && AllValid(db)
      ensures err == None ==> multiset(tasks) == multiset(db.Values)
    {
      tasks := [];
      if !readOk {
        return Some(ReadFailed), [];
      }
      var keys := db.Keys;
      while keys != {}
        invariant keys <= db.Keys
        invariant forall k | k in db.Keys - keys :: ValidTask(db[k])
        invariant multiset(tasks) == multiset(RecordsAt(db, db.Keys - keys))
        decreases |keys|
      {
        var k :| k in keys;
        if !ValidTask(db[k]) {
          return Some(InvalidTask), [];
        }
        OneMoreRecord(db, db.Keys - keys, k);
        assert db.Keys - keys + {k} == db.Keys - (keys - {k});
        tasks := tasks + [db[k]];
        keys := keys - {k};
      }
      assert RecordsAt(db, db.Keys - {}) == db.Values;
      return None, tasks;
    }
  }
}
