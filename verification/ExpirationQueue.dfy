/** The delayed deletion queue over the durable store: an in-memory heap of
    deadlines, the scheduler's take, and the completion of processed groups. */
module ExpirationQueue {
  import opened GoInts
  import opened Options
  import opened MinHeaps
  import opened StorageTarget
  import opened ExpirationLog
  import opened ExpirationStore
  import opened TaskGroups

  const BATCH_SIZE := 1000

  predicate Earlier(a: Task, b: Task) {
    a.expireAt < b.expireAt
  }

  /** A take under way: the tasks taken are due, in deadline order and at most
      `limit`; nothing is lost or duplicated; and no task left behind expires
      before a taken one. */
  ghost predicate Taking(was: multiset<Task>, now: int, limit: nat, tasks: seq<Task>, rest: multiset<Task>) {
    && was == multiset(tasks) + rest
    && |tasks| <= limit
    && SortedByDeadline(tasks)
    && (forall t | t in tasks :: t.expireAt <= now)
    && (forall t, x | t in tasks && x in rest :: t.expireAt <= x.expireAt)
  }

  /** A finished take: besides, a due task is left behind only when the limit is
      reached. */
  ghost predicate TakesDue(was: multiset<Task>, now: int, limit: nat, tasks: seq<Task>, rest: multiset<Task>) {
    && Taking(was, now, limit, tasks, rest)
    && (|tasks| < limit ==> AllLater(rest, now))
  }

  ghost predicate AllLater(heap: multiset<Task>, now: int) {
    forall x | x in heap :: now < x.expireAt
  }

  /** The task is in the heap and none expires before it. */
  ghost predicate IsNext(t: Task, heap: multiset<Task>) {
    t in heap && forall x | x in heap :: t.expireAt <= x.expireAt
  }

  lemma TakeOne(was: multiset<Task>, now: int, limit: nat, tasks: seq<Task>, rest: multiset<Task>, t: Task)
    requires Taking(was, now, limit, tasks, rest)
    requires |tasks| < limit && IsNext(t, rest) && t.expireAt <= now
    ensures Taking(was, now, limit, tasks + [t], rest - multiset{t})
  {
    TakeOneCounts(was, tasks, rest, t);
    forall u, x | u in tasks + [t] && x in rest - multiset{t}
      ensures u.expireAt <= x.expireAt
    {
      assert x in rest;
    }
  }

  lemma DueTasksAreTaken(was: multiset<Task>, now: int, limit: nat, tasks: seq<Task>, rest: multiset<Task>)
    requires TakesDue(was, now, limit, tasks, rest)
    ensures forall t | t in tasks :: t.expireAt <= now
    ensures |tasks| < limit ==> forall t | t in was && t.expireAt <= now :: t in tasks
  {
    assert forall t | t in was :: t in tasks || t in rest;
  }

  /** When the next task is not due, none is. */
  lemma NextIsLater(t: Task, heap: multiset<Task>, now: int)
    requires IsNext(t, heap) && now < t.expireAt
    ensures AllLater(heap, now)
  {
  }

  lemma TakeOneCounts(was: multiset<Task>, tasks: seq<Task>, rest: multiset<Task>, t: Task)
    requires was == multiset(tasks) + rest && t in rest
    ensures was == multiset(tasks + [t]) + (rest - multiset{t})
  {
    assert multiset(tasks + [t]) == multiset(tasks) + multiset{t};
  }

  /** The tasks taken by consecutive takes are in deadline order throughout. */
  lemma TakeRound(was: multiset<Task>, now: int, limit: nat, taken: seq<Task>, mid: multiset<Task>,
      tasks: seq<Task>, rest: multiset<Task>)
    requires Taking(was, now, |taken|, taken, mid)
    requires Taking(mid, now, limit, tasks, rest)
    ensures Taking(was, now, |taken + tasks|, taken + tasks, rest)
  {
    assert forall x | x in rest :: x in mid;
    assert forall t | t in tasks :: t in mid;
  }

  function Concat(rounds: seq<seq<Task>>): seq<Task> {
    if rounds == [] then [] else Concat(rounds[..|rounds| - 1]) + rounds[|rounds| - 1]
  }

  /** The rounds of a drain: full but for the last, and never empty. */
  predicate FullRounds(rounds: seq<seq<Task>>, limit: nat) {
    && (forall i | 0 <= i < |rounds| :: 0 < |rounds[i]| <= limit)
    && (forall i | 0 <= i < |rounds| - 1 :: |rounds[i]| == limit)
  }

  lemma NextMultiple(n: nat, limit: nat)
    ensures (n + 1) * limit == n * limit + limit
  {
  }

  lemma {:induction false} AllFullLength(rounds: seq<seq<Task>>, limit: nat)
    requires forall i | 0 <= i < |rounds| :: |rounds[i]| == limit
    ensures |Concat(rounds)| == |rounds| * limit
  {
    if rounds != [] {
      AllFullLength(rounds[..|rounds| - 1], limit);
      NextMultiple(|rounds| - 1, limit);
    }
  }

  /** Full rounds take n tasks in exactly ceil(n / limit) of them: one round
      fewer would not hold n tasks, and none is superfluous. */
  lemma RoundsAreCeiling(rounds: seq<seq<Task>>, limit: nat)
    requires FullRounds(rounds, limit)
    ensures |Concat(rounds)| <= |rounds| * limit
    ensures rounds != [] ==> (|rounds| - 1) * limit < |Concat(rounds)|
  {
    if rounds != [] {
      var q := |rounds| - 1;
      AllFullLength(rounds[..q], limit);
      NextMultiple(q, limit);
    }
  }

  /** The rounds of a drain so far: the last one may be short only once nothing
      due is left. */
  ghost predicate Draining(was: multiset<Task>, now: int, limit: nat, rounds: seq<seq<Task>>, heap: multiset<Task>) {
    && Taking(was, now, |Concat(rounds)|, Concat(rounds), heap)
    && FullRounds(rounds, limit)
    && (rounds != [] && |rounds[|rounds| - 1]| < limit ==> AllLater(heap, now))
  }

  lemma OneMoreRound(rounds: seq<seq<Task>>, tasks: seq<Task>, limit: nat)
    requires FullRounds(rounds, limit) && 0 < |tasks| <= limit
    requires rounds != [] ==> |rounds[|rounds| - 1]| == limit
    ensures FullRounds(rounds + [tasks], limit)
    ensures Concat(rounds + [tasks]) == Concat(rounds) + tasks
  {
    assert (rounds + [tasks])[..|rounds|] == rounds;
  }

  lemma NothingDrained(was: multiset<Task>, now: int, limit: nat)
    ensures Draining(was, now, limit, [], was)
  {
  }

  lemma DrainRound(was: multiset<Task>, now: int, limit: nat, rounds: seq<seq<Task>>, heap: multiset<Task>,
                   tasks: seq<Task>, rest: multiset<Task>)
    requires Draining(was, now, limit, rounds, heap)
    requires TakesDue(heap, now, limit, tasks, rest) && tasks != []
    ensures Draining(was, now, limit, rounds + [tasks], rest)
    ensures |rest| < |heap|
  {
    assert heap == multiset(tasks) + rest;
    TakeRound(was, now, limit, Concat(rounds), heap, tasks, rest);
    assert tasks[0] in heap;
    OneMoreRound(rounds, tasks, limit);
  }

  /** A drain is over when a take comes back empty. */
  lemma DrainEnds(was: multiset<Task>, now: int, limit: nat, rounds: seq<seq<Task>>, left: multiset<Task>,
      rest: multiset<Task>)
    requires Draining(was, now, limit, rounds, left)
    requires TakesDue(left, now, limit, [], rest) && 0 < limit
    ensures Taking(was, now, |Concat(rounds)|, Concat(rounds), rest)
    ensures AllLater(rest, now)
    ensures |Concat(rounds)| <= |rounds| * limit
    ensures rounds != [] ==> (|rounds| - 1) * limit < |Concat(rounds)|
  {
    assert left == rest;
    RoundsAreCeiling(rounds, limit);
  }

  // ---------- Times ----------

  const NANOS_PER_MINUTE := 60_000_000_000

  /** The time to live of a cached object, in nanoseconds. */
  function CacheTtlDuration(ttl: int): Option<int> {
    if ttl <= 0 || ttl > MAX_INT64 / NANOS_PER_MINUTE then None else Some(ttl * NANOS_PER_MINUTE)
  }

  /** A positive time to live is used exactly when it does not overflow. */
  lemma CacheTtlNeverOverflows(ttl: int)
    ensures CacheTtlDuration(ttl).Some? <==>
            0 < ttl && ttl * 60 * 1_000_000_000 <= 9_223_372_036_854_775_807
    ensures CacheTtlDuration(ttl).Some? ==>
              CacheTtlDuration(ttl).value == ttl * 60 * 1_000_000_000
  {
  }

  /** The delay until a deadline, zero when it has passed. */
  function Delay(deadline: int, now: int): nat {
    if deadline < now then 0 else deadline - now
  }

  class CacheExpirationQueue {
    const store: CacheExpirationStore
    const heap: MinHeap<Task>
    var wake: bool

    ghost predicate Valid()
      reads this, heap
    {
      && heap.Valid()
      && forall a, b :: heap.less(a, b) <==> Earlier(a, b)
    }

    /** The scheduler's view of what it still has to do. */
    ghost function Scheduled(): multiset<Task>
      reads heap
    {
      heap.Contents()
    }

    /** Opens the queue over the recovered tasks: the heap is exactly the
        recorded ones. */
    constructor (store: CacheExpirationStore, tasks: seq<Task>)
      ensures Valid() && this.store == store && fresh(heap)
      ensures Scheduled() == multiset(tasks) && !wake
    {
      this.store := store;
      var h := new MinHeap<Task>((a: Task, b: Task) => Earlier(a, b));
      heap := h;
      wake := false;
      new;
      for i := 0 to |tasks|
        invariant Valid() && fresh(heap) && !wake
        invariant Scheduled() == multiset(tasks[..i])
      {
        assert tasks[..i + 1] == tasks[..i] + [tasks[i]];
        heap.Push(tasks[i]);
      }
      assert tasks[..|tasks|] == tasks;
    }

    /** Save, then push, then signal. A refused save leaves the queue alone. */
    method EnqueueMany(tasks: seq<Task>) returns (err: Option<StoreError>)
      requires Valid()
      requires store.closed || |store.writeCh| < WRITE_QUEUE_SIZE
      modifies this`wake, store`writeCh, heap`items
      ensures Valid()
      ensures err == None <==>
              tasks == [] ||
              (!old(store.closed) &&
               forall t | t in tasks :: t.host != "" && t.bucket != "" && t.key != "" && t.expireAt != 0)
      ensures err == None && tasks != [] ==>
                && store.View() == Submitted(old(store.View()), Events(Put, tasks))
                && Scheduled() == old(Scheduled()) + multiset(tasks) && wake
      ensures err != None || tasks == [] ==>
                store.View() == old(store.View()) && Scheduled() == old(Scheduled()) && wake == old(wake)
    {
      if |tasks| == 0 {
        return None;
      }
      err := store.SaveTasks(tasks);
      if err != None {
        return;
      }
      label saved:
      for i := 0 to |tasks|
        modifies heap`items
        invariant Valid()
        invariant Scheduled() == old@saved(Scheduled()) + multiset(tasks[..i])
      {
        assert tasks[..i + 1] == tasks[..i] + [tasks[i]];
        heap.Push(tasks[i]);
      }
      assert tasks[..|tasks|] == tasks;
      wake := true;
    }

    /** `now` is the time the scheduler captured, `later` the time at which the
        delay to the next deadline is computed. */
    method TakeDue(now: int, later: int, limit: nat) returns (tasks: seq<Task>, wait: nat, hasNext: bool)
      requires Valid()
      modifies heap`items
      ensures Valid()
      ensures TakesDue(old(Scheduled()), now, limit, tasks, Scheduled())
      ensures forall t | t in tasks :: t.expireAt <= now
      ensures |tasks| < limit ==> forall t | t in old(Scheduled()) && t.expireAt <= now :: t in tasks
      ensures hasNext <==> Scheduled() != multiset{}
      ensures tasks != [] || !hasNext ==> wait == 0
      ensures tasks == [] && hasNext ==>
                exists t ::
                  && t in Scheduled() && (forall x | x in Scheduled() :: t.expireAt <= x.expireAt)
                  && wait == if t.expireAt <= later then 0 else t.expireAt - later
    {
      hide TakesDue;
      tasks := PopDue(now, limit);
      DueTasksAreTaken(old(Scheduled()), now, limit, tasks, Scheduled());
      if |tasks| > 0 {
        return tasks, 0, heap.Len() > 0;
      }
      if heap.Len() == 0 {
        return [], 0, false;
      }
      var item := heap.Peek();
      assert IsNext(item.value, Scheduled());
      return [], Delay(item.value.expireAt, later), true;
    }

    /** The loop of takeDue: pop while due and below the limit; a popped future
        task goes back. */
    method PopDue(now: int, limit: nat) returns (tasks: seq<Task>)
      requires Valid()
      modifies heap`items
      ensures Valid()
      ensures TakesDue(old(Scheduled()), now, limit, tasks, Scheduled())
    {
      tasks := [];
      ghost var was := Scheduled();
      while heap.Len() > 0 && |tasks| < limit
        invariant Valid()
        invariant Taking(was, now, limit, tasks, Scheduled())
        decreases heap.Len()
      {
        ghost var before := Scheduled();
        var task := PopNext();
        if task.expireAt > now {
          heap.Push(task);
          assert Scheduled() == before;
          NextIsLater(task, before, now);
          return;
        }
        TakeOne(was, now, limit, tasks, before, task);
        tasks := tasks + [task];
      }
    }

    /** The task with the earliest deadline. */
    method PopNext() returns (task: Task)
      requires Valid() && heap.Len() > 0
      modifies heap`items
      ensures Valid() && heap.Len() == old(heap.Len()) - 1
      ensures IsNext(task, old(Scheduled())) && Scheduled() == old(Scheduled()) - multiset{task}
    {
      var item := heap.Pop();
      task := item.value;
    }

    /** The scheduler's loop with the clock stopped and no one enqueueing: it
        takes and dispatches until a take comes back empty. It takes every due
        task once, in deadline order throughout, in ceil(due / limit) rounds. */
    method DrainDue(now: int, limit: nat) returns (rounds: seq<seq<Task>>)
      requires Valid() && 0 < limit
      modifies heap`items
      ensures Valid()
      ensures Taking(old(Scheduled()), now, |Concat(rounds)|, Concat(rounds), Scheduled())
      ensures AllLater(Scheduled(), now)
      ensures |Concat(rounds)| <= |rounds| * limit
      ensures rounds != [] ==> (|rounds| - 1) * limit < |Concat(rounds)|
    {
      hide Draining, TakesDue;
      rounds := [];
      ghost var was, left := Scheduled(), Scheduled();
      NothingDrained(was, now, limit);
      var tasks := PopDue(now, limit);
      while |tasks| > 0
        invariant Valid()
        invariant Draining(was, now, limit, rounds, left)
        invariant TakesDue(left, now, limit, tasks, Scheduled())
        decreases |left|
      {
        DrainRound(was, now, limit, rounds, left, tasks, Scheduled());
        rounds, left := rounds + [tasks], Scheduled();
        tasks := PopDue(now, limit);
      }
      DrainEnds(was, now, limit, rounds, left, Scheduled());
    }

    /** Processes one group and records its completion. The result says what was
        asked of S3; a refused completion is only logged. */
    method ProcessTaskGroup(tasks: seq<Task>, setting: Option<StorageS3>, client: Option<StorageS3>, response: Response)
        returns (outcome: Outcome)
      requires store.closed || |store.writeCh| < WRITE_QUEUE_SIZE
      modifies store`writeCh
      ensures outcome == Process(tasks, setting, client, response)
      ensures store.View() ==
              if outcome.Processed? && outcome.completed != [] && Acceptable(outcome.completed) && !old(store.closed)
              then Submitted(old(store.View()), Events(Delete, outcome.completed))
              else old(store.View())
    {
      outcome := ProcessGroup(tasks, setting, client, response);
      if outcome.Processed? && |outcome.completed| > 0 {
        var err := store.DeleteTasks(outcome.completed);
      }
    }
  }
}
