/** Cache-expiration tasks, the put/delete events that persist them, and the
    meaning of a log of events. */
module ExpirationLog {
  import opened NulKeys
  import opened Options

  /** One cached object and its deadline. Times are integers counted from the
      zero time, which is 0. */
  datatype Task = Task(host: string, bucket: string, key: string, versionId: string, fingerprint: string, expireAt: int)

  /** What the store requires of a task before it accepts it. */
  predicate ValidTask(t: Task) {
    t.host != "" && t.bucket != "" && t.key != "" && t.expireAt != 0
  }

  function TaskKey(t: Task): string {
    Join([t.host, t.bucket, t.key])
  }

  /** Two tasks share a record exactly when they are for one object of one bucket
      of one host, as long as hosts and buckets hold no NUL. */
  lemma {:induction false} TaskKeyIdentifies(a: Task, b: Task)
    requires NulFree(a.host) && NulFree(a.bucket) && NulFree(b.host) && NulFree(b.bucket)
    ensures TaskKey(a) == TaskKey(b) <==> a.host == b.host && a.bucket == b.bucket && a.key == b.key
  {
    var f, g := [a.host, a.bucket, a.key], [b.host, b.bucket, b.key];
    JoinInjective(f, g);
    if f == g {
      assert f[0] == g[0] && f[1] == g[1] && f[2] == g[2];
    }
  }

  datatype Operation = Put | Delete
  datatype Event = Event(op: Operation, task: Task)

  /** The events of one SaveTasks or DeleteTasks call. */
  type Batch = seq<Event>
  type Db = map<string, Task>

  /** Every record is filed under its own task's key. */
  ghost predicate Keyed(db: Db) {
    forall k | k in db :: TaskKey(db[k]) == k
  }

  function Events(op: Operation, tasks: seq<Task>): (b: Batch)
    ensures |b| == |tasks|
    ensures forall i | 0 <= i < |tasks| :: b[i] == Event(op, tasks[i])
  {
    seq(|tasks|, i requires 0 <= i < |tasks| => Event(op, tasks[i]))
  }

  function ApplyEvent(db: Db, e: Event): Db {
    match e.op
    case Put => db[TaskKey(e.task) := e.task]
    case Delete => db - {TaskKey(e.task)}
  }

  /** The records after the events, oldest first. */
  function Apply(db: Db, es: seq<Event>): Db {
    if es == [] then db else ApplyEvent(Apply(db, es[..|es| - 1]), es[|es| - 1])
  }

  function Flatten(bs: seq<Batch>): seq<Event> {
    if bs == [] then [] else Flatten(bs[..|bs| - 1]) + bs[|bs| - 1]
  }

  lemma {:induction false} ApplyAppend(db: Db, a: seq<Event>, b: seq<Event>)
    ensures Apply(db, a + b) == Apply(Apply(db, a), b)
  {
    if b == [] {
      assert a + b == a;
    } else {
      assert (a + b)[..|a + b| - 1] == a + b[..|b| - 1];
      ApplyAppend(db, a, b[..|b| - 1]);
    }
  }

  lemma {:induction false} FlattenAppend(a: seq<Batch>, b: seq<Batch>)
    ensures Flatten(a + b) == Flatten(a) + Flatten(b)
  {
    if b == [] {
      assert a + b == a;
    } else {
      assert (a + b)[..|a + b| - 1] == a + b[..|b| - 1];
      FlattenAppend(a, b[..|b| - 1]);
    }
  }

  lemma FlattenOne(b: Batch)
    ensures Flatten([b]) == b
  {
    assert [b][..0] == [];
  }

  /** The log splits at any batch boundary. */
  lemma LogSplits(base: Db, log: seq<Batch>, k: nat)
    requires k <= |log|
    ensures Apply(base, Flatten(log)) == Apply(Apply(base, Flatten(log[..k])), Flatten(log[k..]))
  {
    assert log == log[..k] + log[k..];
    FlattenAppend(log[..k], log[k..]);
    ApplyAppend(base, Flatten(log[..k]), Flatten(log[k..]));
  }

  /** The newest event for a key, found without applying any. */
  function LatestEvent(es: seq<Event>, k: string): Option<Event> {
    if es == [] then None
    else if TaskKey(es[|es| - 1].task) == k then Some(es[|es| - 1])
    else LatestEvent(es[..|es| - 1], k)
  }

  /** Applying a log is "the latest event wins": a key holds task t exactly when
      its latest event is the put of t, or it has no event and held t before. */
  lemma {:induction false} LatestEventWins(db: Db, es: seq<Event>, k: string, t: Task)
    ensures (k in Apply(db, es) && Apply(db, es)[k] == t) <==>
            (LatestEvent(es, k) == Some(Event(Put, t)) ||
             (LatestEvent(es, k) == None && k in db && db[k] == t))
  {
    if es != [] {
      LatestEventWins(db, es[..|es| - 1], k, t);
    }
  }

  /** The batch has an event for the key. */
  predicate Touches(b: Batch, k: string) {
    exists i :: 0 <= i < |b| && TaskKey(b[i].task) == k
  }

  lemma {:induction false} LatestOfBatch(b: Batch, k: string)
    ensures LatestEvent(b, k).Some? <==> Touches(b, k)
    ensures LatestEvent(b, k).Some? ==> LatestEvent(b, k).value in b && TaskKey(LatestEvent(b, k).value.task) == k
  {
    if b != [] {
      LatestOfBatch(b[..|b| - 1], k);
      assert TaskKey(b[|b| - 1].task) == k ==> Touches(b, k);
      assert Touches(b[..|b| - 1], k) ==> Touches(b, k);
    }
  }

  lemma {:induction false} LatestOfAppend(a: seq<Event>, b: seq<Event>, k: string)
    ensures LatestEvent(a + b, k) == if LatestEvent(b, k).Some? then LatestEvent(b, k) else LatestEvent(a, k)
  {
    if b == [] {
      assert a + b == a;
    } else {
      LatestOfAppend(a, b[..|b| - 1], k);
      assert (a + b)[..|a + b| - 1] == a + b[..|b| - 1];
    }
  }

  predicate Touched(log: seq<Batch>, k: string) {
    exists i :: 0 <= i < |log| && Touches(log[i], k)
  }

  /** Batch i is the last one with an event for the key. */
  predicate LastTouch(log: seq<Batch>, i: nat, k: string) {
    i < |log| && Touches(log[i], k) && forall j | i < j < |log| :: !Touches(log[j], k)
  }

  lemma {:induction false} SomeLastTouch(log: seq<Batch>, k: string) returns (i: nat)
    requires Touched(log, k)
    ensures LastTouch(log, i, k)
  {
    var n := |log| - 1;
    if Touches(log[n], k) {
      i := n;
    } else {
      i := SomeLastTouch(log[..n], k);
    }
  }

  /** The latest event of a key is in the last batch that touches it. */
  lemma {:induction false} LatestOfLog(log: seq<Batch>, i: nat, k: string)
    requires LastTouch(log, i, k)
    ensures LatestEvent(Flatten(log), k) == LatestEvent(log[i], k)
  {
    var n := |log| - 1;
    LatestOfAppend(Flatten(log[..n]), log[n], k);
    LatestOfBatch(log[n], k);
    if i < n {
      LatestOfLog(log[..n], i, k);
    }
  }

  lemma {:induction false} NoneWhenUntouched(log: seq<Batch>, k: string)
    requires !Touched(log, k)
    ensures LatestEvent(Flatten(log), k) == None
  {
    if log != [] {
      var n := |log| - 1;
      assert !Touches(log[n], k);
      assert forall i | 0 <= i < n :: !Touches(log[..n][i], k);
      NoneWhenUntouched(log[..n], k);
      LatestOfAppend(Flatten(log[..n]), log[n], k);
      LatestOfBatch(log[n], k);
    }
  }

  /** What a log records is from before, or from an event of its key. */
  lemma RecordedIsKnown(base: Db, log: seq<Batch>, k: string)
    requires k in Apply(base, Flatten(log))
    ensures k in base || Touched(log, k)
  {
    if !Touched(log, k) {
      NoneWhenUntouched(log, k);
      LatestEventWins(base, Flatten(log), k, Apply(base, Flatten(log))[k]);
    }
  }

  lemma {:induction false} ApplyKeepsKeyed(db: Db, es: seq<Event>)
    requires Keyed(db)
    ensures Keyed(Apply(db, es))
  {
    if es != [] {
      ApplyKeepsKeyed(db, es[..|es| - 1]);
    }
  }

  /** Puts only add or replace: what is recorded afterwards is one of the tasks
      put, or was recorded before under the same key. */
  lemma {:induction false} PutsRecord(db: Db, tasks: seq<Task>, k: string)
    requires k in Apply(db, Events(Put, tasks))
    ensures Apply(db, Events(Put, tasks))[k] in tasks || (k in db && db[k] == Apply(db, Events(Put, tasks))[k])
  {
    if tasks != [] {
      var front := tasks[..|tasks| - 1];
      assert Events(Put, tasks)[..|tasks| - 1] == Events(Put, front);
      if TaskKey(tasks[|tasks| - 1]) != k {
        PutsRecord(db, front, k);
      }
    }
  }

  predicate NulFreeTargets(es: seq<Event>) {
    forall e | e in es :: NulFree(e.task.host) && NulFree(e.task.bucket)
  }

  /** An event stands as long as no later one is for the same object: a task put
      stays recorded whatever happens to other objects, and a deleted record stays
      away. */
  lemma {:induction false} LastEventOfObjectStands(db: Db, es: seq<Event>, i: nat)
    requires i < |es| && NulFreeTargets(es)
    requires forall j | i < j < |es| ::
               !(es[j].task.host == es[i].task.host && es[j].task.bucket == es[i].task.bucket &&
                 es[j].task.key == es[i].task.key)
    ensures LatestEvent(es, TaskKey(es[i].task)) == Some(es[i])
    ensures es[i].op.Put? ==>
              TaskKey(es[i].task) in Apply(db, es) && Apply(db, es)[TaskKey(es[i].task)] == es[i].task
    ensures es[i].op.Delete? ==> TaskKey(es[i].task) !in Apply(db, es)
  {
    var n := |es| - 1;
    if i < n {
      assert es[i] in es && es[n] in es;
      TaskKeyIdentifies(es[i].task, es[n].task);
      assert forall e | e in es[..n] :: e in es;
      LastEventOfObjectStands(db, es[..n], i);
    }
  }

  /** Saving tasks of two objects leaves both recorded. */
  lemma {:induction false} BothObjectsRecorded(db: Db, a: Task, b: Task)
    requires NulFree(a.host) && NulFree(a.bucket) && NulFree(b.host) && NulFree(b.bucket)
    requires a.host != b.host || a.bucket != b.bucket || a.key != b.key
    ensures var db' := Apply(db, [Event(Put, a), Event(Put, b)]);
            && TaskKey(a) in db' && db'[TaskKey(a)] == a
            && TaskKey(b) in db' && db'[TaskKey(b)] == b
  {
    var es := [Event(Put, a), Event(Put, b)];
    LastEventOfObjectStands(db, es, 0);
    LastEventOfObjectStands(db, es, 1);
  }

  /** Deletes remove exactly the keys of their tasks. */
  lemma {:induction false} DeletesErase(db: Db, tasks: seq<Task>)
    ensures Apply(db, Events(Delete, tasks)) == db - (set i | 0 <= i < |tasks| :: TaskKey(tasks[i]))
  {
    if tasks != [] {
      var n := |tasks| - 1;
      var front := tasks[..n];
      assert Events(Delete, tasks)[..n] == Events(Delete, front);
      DeletesErase(db, front);
      assert (set i | 0 <= i < |tasks| :: TaskKey(tasks[i])) ==
             (set i | 0 <= i < |front| :: TaskKey(front[i])) + {TaskKey(tasks[n])};
    }
  }
}
