/** How due tasks are grouped for deletion, and what processing one group does. */
module TaskGroups {
  import opened NulKeys
  import opened Options
  import opened Sequences
  import opened StorageTarget
  import opened ExpirationLog

  // ---------- Grouping by host and bucket ----------

  function GroupKey(t: Task): string {
    Join([t.host, t.bucket])
  }

  /** The tasks of one group, in the order of the taken batch. */
  function InGroup(tasks: seq<Task>, k: string): seq<Task> {
    if tasks == [] then []
    else
      var n := |tasks| - 1;
      InGroup(tasks[..n], k) + (if GroupKey(tasks[n]) == k then [tasks[n]] else [])
  }

  predicate Distinct(keys: seq<string>) {
    forall i, j | 0 <= i < j < |keys| :: keys[i] != keys[j]
  }

  /** The groups of a batch, in any order of their keys. */
  ghost predicate Grouping(tasks: seq<Task>, keys: seq<string>, groups: seq<seq<Task>>) {
    && |keys| == |groups|
    && Distinct(keys)
    && (forall i | 0 <= i < |keys| :: groups[i] == InGroup(tasks, keys[i]))
    && (forall k :: k in keys <==> exists t :: t in tasks && GroupKey(t) == k)
  }

  ghost predicate GroupedByKey(tasks: seq<Task>, m: map<string, seq<Task>>) {
    && (forall t | t in tasks :: GroupKey(t) in m)
    && (forall k | k in m :: m[k] == InGroup(tasks, k) && m[k] != [])
  }

  lemma {:induction false} InGroupEmptyIffNone(tasks: seq<Task>, k: string)
    ensures InGroup(tasks, k) == [] <==> forall t | t in tasks :: GroupKey(t) != k
  {
    if tasks != [] {
      InGroupEmptyIffNone(tasks[..|tasks| - 1], k);
      assert tasks == tasks[..|tasks| - 1] + [tasks[|tasks| - 1]];
    }
  }

  lemma GroupedByKeyStep(tasks: seq<Task>, i: nat, m: map<string, seq<Task>>)
    requires i < |tasks| && GroupedByKey(tasks[..i], m)
    ensures var k := GroupKey(tasks[i]);
            GroupedByKey(tasks[..i + 1], m[k := (if k in m then m[k] else []) + [tasks[i]]])
  {
    var k := GroupKey(tasks[i]);
    var m' := m[k := (if k in m then m[k] else []) + [tasks[i]]];
    assert tasks[..i + 1][..i] == tasks[..i];
    InGroupEmptyIffNone(tasks[..i], k);
    forall j | j in m'
      ensures m'[j] == InGroup(tasks[..i + 1], j) && m'[j] != []
    {
      assert InGroup(tasks[..i + 1], j) == InGroup(tasks[..i], j) + (if k == j then [tasks[i]] else []);
    }
  }

  method BuildGroups(tasks: seq<Task>) returns (m: map<string, seq<Task>>)
    ensures GroupedByKey(tasks, m)
  {
    m := map[];
    for i := 0 to |tasks|
      invariant GroupedByKey(tasks[..i], m)
    {
      GroupedByKeyStep(tasks, i, m);
      var groupKey := GroupKey(tasks[i]);
      m := m[groupKey := (if groupKey in m then m[groupKey] else []) + [tasks[i]]];
    }
    assert tasks[..|tasks|] == tasks;
  }

  method GroupTasks(tasks: seq<Task>) returns (keys: seq<string>, groups: seq<seq<Task>>)
    ensures Grouping(tasks, keys, groups)
  {
    var m := BuildGroups(tasks);
    keys, groups := [], [];
    var left := m.Keys;
    while left != {}
      invariant |keys| == |groups| && Distinct(keys)
      invariant left <= m.Keys
      invariant forall k :: k in m <==> k in left || k in keys
      invariant forall k | k in keys :: k !in left
      invariant forall i | 0 <= i < |keys| :: groups[i] == m[keys[i]]
      decreases |left|
    {
      var k :| k in left;
      left := left - {k};
      keys, groups := keys + [k], groups + [m[k]];
    }
    forall k
      ensures k in keys <==> exists t :: t in tasks && GroupKey(t) == k
    {
      InGroupEmptyIffNone(tasks, k);
    }
  }

  function GroupSum(groups: seq<seq<Task>>): multiset<Task> {
    if groups == [] then multiset{} else GroupSum(groups[..|groups| - 1]) + multiset(groups[|groups| - 1])
  }

  lemma {:induction false} InGroupCount(tasks: seq<Task>, k: string, t: Task)
    ensures multiset(InGroup(tasks, k))[t] == if GroupKey(t) == k then multiset(tasks)[t] else 0
  {
    if tasks != [] {
      InGroupCount(tasks[..|tasks| - 1], k, t);
      SplitLast(tasks);
    }
  }

  lemma {:induction false} GroupSumCount(tasks: seq<Task>, keys: seq<string>, groups: seq<seq<Task>>, t: Task)
    requires |keys| == |groups| && Distinct(keys)
    requires forall i | 0 <= i < |keys| :: groups[i] == InGroup(tasks, keys[i])
    ensures GroupSum(groups)[t] == if GroupKey(t) in keys then multiset(tasks)[t] else 0
  {
    if keys != [] {
      var n := |keys| - 1;
      GroupSumCount(tasks, keys[..n], groups[..n], t);
      InGroupCount(tasks, keys[n], t);
      SplitLast(keys);
      assert keys[n] !in keys[..n];
      assert GroupSum(groups)[t] == GroupSum(groups[..n])[t] + multiset(groups[n])[t];
    }
  }

  /** Grouping conserves the batch: every task lands in exactly one group. */
  lemma GroupsConserve(tasks: seq<Task>, keys: seq<string>, groups: seq<seq<Task>>)
    requires Grouping(tasks, keys, groups)
    ensures GroupSum(groups) == multiset(tasks)
  {
    forall t: Task
      ensures GroupSum(groups)[t] == multiset(tasks)[t]
    {
      GroupSumCount(tasks, keys, groups, t);
      if GroupKey(t) !in keys {
        assert t !in tasks;
      }
    }
  }

  predicate SortedByDeadline(tasks: seq<Task>) {
    forall i, j | 0 <= i < j < |tasks| :: tasks[i].expireAt <= tasks[j].expireAt
  }

  lemma {:induction false} GroupMembers(tasks: seq<Task>, k: string)
    ensures |InGroup(tasks, k)| <= |tasks|
    ensures forall t :: t in InGroup(tasks, k) <==> t in tasks && GroupKey(t) == k
  {
    if tasks != [] {
      GroupMembers(tasks[..|tasks| - 1], k);
      SplitLast(tasks);
    }
  }

  lemma {:induction false} GroupStaysSorted(tasks: seq<Task>, k: string)
    requires SortedByDeadline(tasks)
    ensures SortedByDeadline(InGroup(tasks, k))
  {
    if tasks != [] {
      var n := |tasks| - 1;
      GroupStaysSorted(tasks[..n], k);
      GroupMembers(tasks[..n], k);
      var g := InGroup(tasks[..n], k);
      assert forall i | 0 <= i < |g| :: g[i] in tasks[..n];
    }
  }

  /** A group is no larger than the batch, is never reordered, has only tasks of
      the batch, and serves one group key. */
  lemma {:induction false} GroupShape(tasks: seq<Task>, k: string)
    ensures |InGroup(tasks, k)| <= |tasks|
    ensures forall t :: t in InGroup(tasks, k) <==> t in tasks && GroupKey(t) == k
    ensures SortedByDeadline(tasks) ==> SortedByDeadline(InGroup(tasks, k))
  {
    GroupMembers(tasks, k);
    if SortedByDeadline(tasks) {
      GroupStaysSorted(tasks, k);
    }
  }

  /** When host names hold no NUL, one group is one host and one bucket. */
  lemma GroupHasOneTarget(tasks: seq<Task>, k: string, t: Task, u: Task)
    requires t in InGroup(tasks, k) && u in InGroup(tasks, k)
    requires NulFree(t.host) && NulFree(u.host)
    ensures t.host == u.host && t.bucket == u.bucket
  {
    GroupShape(tasks, k);
    JoinInjective([t.host, t.bucket], [u.host, u.bucket]);
    assert [t.host, t.bucket][1] == [u.host, u.bucket][1];
  }

  /** Two tasks of a batch are in one group exactly when they are for one bucket
      of one host. */
  lemma {:induction false} GroupedExactlyByTarget(
      tasks: seq<Task>, keys: seq<string>, groups: seq<seq<Task>>, t: Task, u: Task)
    requires Grouping(tasks, keys, groups) && t in tasks && u in tasks && NulFree(t.host) && NulFree(u.host)
    ensures (exists g :: g in groups && t in g && u in g) <==> t.host == u.host && t.bucket == u.bucket
  {
    GroupKeyIdentifies(t, u);
    assert GroupKey(t) in keys;
    var i :| 0 <= i < |keys| && keys[i] == GroupKey(t);
    GroupMembers(tasks, keys[i]);
    if GroupKey(t) == GroupKey(u) {
      assert groups[i] in groups && t in groups[i] && u in groups[i];
    }
    forall g | g in groups && t in g && u in g
      ensures GroupKey(t) == GroupKey(u)
    {
      var j :| 0 <= j < |groups| && groups[j] == g;
      GroupMembers(tasks, keys[j]);
    }
  }

  lemma {:induction false} GroupKeyIdentifies(t: Task, u: Task)
    requires NulFree(t.host) && NulFree(u.host)
    ensures GroupKey(t) == GroupKey(u) <==> t.host == u.host && t.bucket == u.bucket
  {
    var f, g := [t.host, t.bucket], [u.host, u.bucket];
    JoinInjective(f, g);
    if f == g {
      assert f[0] == g[0] && f[1] == g[1];
    }
  }

  // ---------- Processing one group ----------

  datatype ObjectId = ObjectId(key: string, versionId: Option<string>)

  /** What DeleteObjects came to: an error or empty response, or the keys that
      the response reports as failed. */
  datatype Response = NoAnswer | Answered(errorKeys: set<string>)

  /** One DeleteObjects call: the configuration its client was built from, the
      bucket, the tasks and the object list sent for them. */
  datatype Request = Request(client: StorageS3, bucket: string, tasks: seq<Task>, objects: seq<ObjectId>,
      response: Response)

  datatype Outcome =
    | Unconfigured
    | Processed(request: Option<Request>, completed: seq<Task>, failed: seq<Task>)

  /** A task whose storage identity is unknown or is not that of the current
      setting, of the client and of the configured bucket. */
  predicate Stale(t: Task, setting: StorageS3, client: StorageS3) {
    || t.fingerprint == ""
    || t.fingerprint != Fingerprint(setting)
    || t.fingerprint != Fingerprint(client)
    || t.bucket != setting.bucket
  }

  predicate Succeeded(t: Task, response: Response) {
    response.Answered? && t.key !in response.errorKeys
  }

  function StaleTasks(tasks: seq<Task>, setting: StorageS3, client: StorageS3): seq<Task> {
    if tasks == [] then []
    else
      var n := |tasks| - 1;
      StaleTasks(tasks[..n], setting, client) + (if Stale(tasks[n], setting, client) then [tasks[n]] else [])
  }

  function LiveTasks(tasks: seq<Task>, setting: StorageS3, client: StorageS3): seq<Task> {
    if tasks == [] then []
    else
      var n := |tasks| - 1;
      LiveTasks(tasks[..n], setting, client) + (if Stale(tasks[n], setting, client) then [] else [tasks[n]])
  }

  function WithResult(tasks: seq<Task>, response: Response, ok: bool): seq<Task> {
    if tasks == [] then []
    else
      var n := |tasks| - 1;
      WithResult(tasks[..n], response, ok) + (if Succeeded(tasks[n], response) == ok then [tasks[n]] else [])
  }

  function Object(t: Task): ObjectId {
    ObjectId(t.key, if t.versionId != "" then Some(t.versionId) else None)
  }

  function Objects(tasks: seq<Task>): seq<ObjectId> {
    seq(|tasks|, i requires 0 <= i < |tasks| => Object(tasks[i]))
  }

  /** The effect of processing a group under the setting and the client found
      for its host, when DeleteObjects answers `response`. */
  function Process(tasks: seq<Task>, setting: Option<StorageS3>, client: Option<StorageS3>,
      response: Response): Outcome
  {
    if tasks == [] || setting.None? || setting.value.endpoint == "" || client.None? then Unconfigured
    else
      var stale := StaleTasks(tasks, setting.value, client.value);
      var live := LiveTasks(tasks, setting.value, client.value);
      if live == [] then Processed(None, stale, [])
      else
        Processed(Some(Request(client.value, live[0].bucket, live, Objects(live), response)),
                  stale + WithResult(live, response, true), WithResult(live, response, false))
  }

  method SplitStale(tasks: seq<Task>, setting: StorageS3, client: StorageS3)
      returns (completed: seq<Task>, deletable: seq<Task>)
    ensures completed == StaleTasks(tasks, setting, client)
    ensures deletable == LiveTasks(tasks, setting, client)
  {
    completed, deletable := [], [];
    for i := 0 to |tasks|
      invariant completed == StaleTasks(tasks[..i], setting, client)
      invariant deletable == LiveTasks(tasks[..i], setting, client)
    {
      assert tasks[..i + 1][..i] == tasks[..i];
      if Stale(tasks[i], setting, client) {
        completed := completed + [tasks[i]];
      } else {
        deletable := deletable + [tasks[i]];
      }
    }
    assert tasks[..|tasks|] == tasks;
  }

  /** The keys to which a request failed: all of them when it had no answer. */
  method CollectErrors(deletable: seq<Task>, response: Response) returns (removeErrors: set<string>)
    ensures forall t | t in deletable :: t.key in removeErrors <==> !Succeeded(t, response)
  {
    if response.Answered? {
      return response.errorKeys;
    }
    removeErrors := {};
    for i := 0 to |deletable|
      invariant forall j | 0 <= j < i :: deletable[j].key in removeErrors
    {
      removeErrors := removeErrors + {deletable[i].key};
    }
  }

  /** The body of processTaskGroup up to the store: split off stale tasks, send
      the others, and collect what is complete. */
  method ProcessGroup(tasks: seq<Task>, setting: Option<StorageS3>, client: Option<StorageS3>, response: Response)
      returns (outcome: Outcome)
    ensures outcome == Process(tasks, setting, client, response)
  {
    if |tasks| == 0 {
      return Unconfigured;
    }
    if setting.None? || setting.value.endpoint == "" {
      return Unconfigured;
    }
    if client.None? {
      return Unconfigured;
    }
    var stale, deletable := SplitStale(tasks, setting.value, client.value);
    if |deletable| == 0 {
      return Processed(None, stale, []);
    }
    var request := Request(client.value, deletable[0].bucket, deletable, Objects(deletable), response);
    var removeErrors := CollectErrors(deletable, response);
    var done, failed := [], [];
    for i := 0 to |deletable|
      invariant done == WithResult(deletable[..i], response, true)
      invariant failed == WithResult(deletable[..i], response, false)
    {
      assert deletable[..i + 1][..i] == deletable[..i];
      if deletable[i].key in removeErrors {
        failed := failed + [deletable[i]];
      } else {
        done := done + [deletable[i]];
      }
    }
    assert deletable[..|deletable|] == deletable;
    outcome := Processed(Some(request), stale + done, failed);
  }

  lemma {:induction false} StaleOrLive(tasks: seq<Task>, setting: StorageS3, client: StorageS3)
    ensures multiset(StaleTasks(tasks, setting, client)) + multiset(LiveTasks(tasks, setting, client)) ==
            multiset(tasks)
    ensures |LiveTasks(tasks, setting, client)| <= |tasks|
  {
    if tasks != [] {
      StaleOrLive(tasks[..|tasks| - 1], setting, client);
      SplitLast(tasks);
    }
  }

  lemma {:induction false} StaleMember(tasks: seq<Task>, setting: StorageS3, client: StorageS3, t: Task)
    ensures t in StaleTasks(tasks, setting, client) <==> t in tasks && Stale(t, setting, client)
    ensures t in LiveTasks(tasks, setting, client) <==> t in tasks && !Stale(t, setting, client)
  {
    if tasks != [] {
      StaleMember(tasks[..|tasks| - 1], setting, client, t);
      SplitLast(tasks);
    }
  }

  lemma {:induction false} SucceededOrFailed(tasks: seq<Task>, response: Response)
    ensures multiset(WithResult(tasks, response, true)) + multiset(WithResult(tasks, response, false)) ==
            multiset(tasks)
  {
    if tasks != [] {
      SucceededOrFailed(tasks[..|tasks| - 1], response);
      SplitLast(tasks);
    }
  }

  lemma {:induction false} ResultMember(tasks: seq<Task>, response: Response, ok: bool, t: Task)
    ensures t in WithResult(tasks, response, ok) <==> t in tasks && Succeeded(t, response) == ok
  {
    if tasks != [] {
      ResultMember(tasks[..|tasks| - 1], response, ok, t);
      SplitLast(tasks);
    }
  }

  /** Completed and failed tasks are exactly the group, and the group is left
      alone exactly when it is empty or its host is not configured. */
  lemma OutcomeConserves(tasks: seq<Task>, setting: Option<StorageS3>, client: Option<StorageS3>, response: Response)
    ensures var o := Process(tasks, setting, client, response);
            && (o.Unconfigured? <==> tasks == [] || setting.None? || setting.value.endpoint == "" || client.None?)
            && (o.Processed? ==> multiset(o.completed) + multiset(o.failed) == multiset(tasks))
  {
    if Process(tasks, setting, client, response).Processed? {
      var stale := StaleTasks(tasks, setting.value, client.value);
      var live := LiveTasks(tasks, setting.value, client.value);
      var ok, failed := WithResult(live, response, true), WithResult(live, response, false);
      StaleOrLive(tasks, setting.value, client.value);
      SucceededOrFailed(live, response);
      assert multiset(stale + ok) + multiset(failed) == multiset(stale) + (multiset(ok) + multiset(failed));
    }
  }

  /** Every request goes to the right place: the client and the bucket are those
      recorded in every task of the request. */
  ghost predicate OnTarget(r: Request) {
    && r.objects == Objects(r.tasks) && r.tasks != []
    && forall t | t in r.tasks :: t.fingerprint == Fingerprint(r.client) && t.fingerprint != "" && t.bucket == r.bucket
  }

  lemma RequestIsOnTarget(tasks: seq<Task>, setting: Option<StorageS3>, client: Option<StorageS3>, response: Response)
    ensures var o := Process(tasks, setting, client, response);
            o.Processed? && o.request.Some? ==>
              && OnTarget(o.request.value)
              && |o.request.value.tasks| <= |tasks|
              && o.request.value.client == client.value
              && o.request.value.response == response
  {
    var o := Process(tasks, setting, client, response);
    if o.Processed? && o.request.Some? {
      var live := LiveTasks(tasks, setting.value, client.value);
      StaleOrLive(tasks, setting.value, client.value);
      forall t | t in live
        ensures !Stale(t, setting.value, client.value)
      {
        StaleMember(tasks, setting.value, client.value, t);
      }
      assert live[0] in live;
    }
  }

  /** A task is completed exactly when it is stale, or was sent in the request
      and came back without an error. */
  lemma CompletedIffStaleOrDeleted(tasks: seq<Task>, setting: Option<StorageS3>, client: Option<StorageS3>,
      response: Response, t: Task)
    requires Process(tasks, setting, client, response).Processed? && t in tasks
    ensures var o := Process(tasks, setting, client, response);
            && (t in o.completed <==>
                 Stale(t, setting.value, client.value) ||
                 (o.request.Some? && t in o.request.value.tasks && Succeeded(t, response)))
            && (t in o.failed <==> !Stale(t, setting.value, client.value) && !Succeeded(t, response))
            && (t in o.completed ==> t !in o.failed)
  {
    var o := Process(tasks, setting, client, response);
    var live := LiveTasks(tasks, setting.value, client.value);
    StaleMember(tasks, setting.value, client.value, t);
    ResultMember(live, response, true, t);
    ResultMember(live, response, false, t);
    assert live == [] ==> t !in live;
  }

  // ---------- What is sent, and what comes of it ----------

  /** A task is sent exactly when its storage is the one of the setting and of the
      client, and its bucket the configured one. */
  lemma {:induction false} SentExactlyWhenCurrent(
      tasks: seq<Task>, setting: StorageS3, client: StorageS3, response: Response, t: Task)
    requires t in tasks && setting.endpoint != ""
    ensures var o := Process(tasks, Some(setting), Some(client), response);
            && o.Processed?
            && (o.request.Some? && t in o.request.value.tasks <==>
                t.fingerprint == Fingerprint(setting) && t.fingerprint == Fingerprint(client) &&
                t.bucket == setting.bucket)
  {
    hide Fingerprint;
    StaleMember(tasks, setting, client, t);
    FingerprintIsNotEmpty(setting);
  }

  /** It is completed exactly when it was not to be sent, or S3 answered and did
      not name its key; and it has failed otherwise. */
  lemma {:induction false} CompletedExactlyWhen(
      tasks: seq<Task>, setting: StorageS3, client: StorageS3, response: Response, t: Task)
    requires t in tasks && setting.endpoint != ""
    ensures var o := Process(tasks, Some(setting), Some(client), response);
            var current := t.fingerprint == Fingerprint(setting) && t.fingerprint == Fingerprint(client) &&
                           t.bucket == setting.bucket;
            && o.Processed?
            && (t in o.completed <==> !current || (response != NoAnswer && t.key !in response.errorKeys))
            && (t in o.failed <==> current && (response == NoAnswer || t.key in response.errorKeys))
  {
    SentExactlyWhenCurrent(tasks, setting, client, response, t);
    CompletedIffStaleOrDeleted(tasks, Some(setting), Some(client), response, t);
    StaleMember(tasks, setting, client, t);
  }

  lemma FingerprintIsNotEmpty(c: StorageS3)
    ensures Fingerprint(c) != ""
  {
  }

  lemma {:induction false} NoneStaleAllLive(tasks: seq<Task>, setting: StorageS3, client: StorageS3)
    requires forall i | 0 <= i < |tasks| :: !Stale(tasks[i], setting, client)
    ensures LiveTasks(tasks, setting, client) == tasks && StaleTasks(tasks, setting, client) == []
  {
    hide Stale;
    if tasks != [] {
      var n := |tasks| - 1;
      NoneStaleAllLive(tasks[..n], setting, client);
      assert tasks == tasks[..n] + [tasks[n]];
    }
  }

  lemma {:induction false} CurrentTasksAreLive(tasks: seq<Task>, setting: StorageS3, client: StorageS3)
    requires forall t | t in tasks ::
               t.fingerprint == Fingerprint(setting) && t.fingerprint == Fingerprint(client) &&
               t.bucket == setting.bucket
    ensures LiveTasks(tasks, setting, client) == tasks && StaleTasks(tasks, setting, client) == []
  {
    hide Fingerprint, LiveTasks, StaleTasks;
    FingerprintIsNotEmpty(setting);
    forall i | 0 <= i < |tasks|
      ensures !Stale(tasks[i], setting, client)
    {
      assert tasks[i] in tasks;
    }
    NoneStaleAllLive(tasks, setting, client);
  }

  /** A group whose tasks are all for the storage in force is sent as a whole, in
      order: each object by its key, with its version if it has one. */
  lemma {:induction false} CurrentGroupIsSent(
      tasks: seq<Task>, setting: StorageS3, client: StorageS3, response: Response)
    requires tasks != [] && setting.endpoint != ""
    requires forall t | t in tasks ::
               t.fingerprint == Fingerprint(setting) && t.fingerprint == Fingerprint(client) &&
               t.bucket == setting.bucket
    ensures var o := Process(tasks, Some(setting), Some(client), response);
            && o.Processed? && o.request.Some?
            && o.request.value.tasks == tasks && |o.request.value.objects| == |tasks|
            && o.request.value.client == client && o.request.value.bucket == setting.bucket
            && forall i | 0 <= i < |tasks| ::
                 o.request.value.objects[i] ==
                 ObjectId(tasks[i].key, if tasks[i].versionId == "" then None else Some(tasks[i].versionId))
  {
    CurrentTasksAreLive(tasks, setting, client);
    assert tasks[0] in tasks;
  }
}
