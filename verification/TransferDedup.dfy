/** The reservation protocol that keeps one upload in flight for each host,
    bucket and key: reserve, send to the channel, hand to the pool, run, free. */
module TransferDedup {
  import opened NulKeys
  import opened Sequences

  const CHANNEL_SIZE := 1000
  const POOL_SIZE := 100

  datatype Info = Info(host: string, bucket: string, s3Path: string)

  function TransferKey(i: Info): string {
    Join([i.host, i.bucket, i.s3Path])
  }

  /** `reserved` is transferMap; `senders` have reserved and wait to send; `hand`
      holds the transfer that the loop has received and not yet handed over;
      `lost` is what it held when handing over failed and the loop returned. */
  datatype State = State(
    reserved: set<string>, senders: seq<Info>, ch: seq<Info>, hand: seq<Info>,
    running: seq<Info>, lost: seq<Info>, loopEnded: bool)

  datatype Action =
    | Push(info: Info)
    | Send(i: nat)
    | Receive
    | Invoke
    | InvokeFails
    | Finish(i: nat)

  const INITIAL := State({}, [], [], [], [], [], false)

  predicate Enabled(s: State, a: Action) {
    match a
    case Push(_) => true
    case Send(i) => i < |s.senders| && |s.ch| < CHANNEL_SIZE
    case Receive => !s.loopEnded && s.hand == [] && s.ch != []
    case Invoke => s.hand != [] && |s.running| < POOL_SIZE
    case InvokeFails => s.hand != []
    case Finish(i) => i < |s.running|
  }

  function Next(s: State, a: Action): State
    requires Enabled(s, a)
  {
    match a
    case Push(info) =>
      if TransferKey(info) in s.reserved then s
      else s.(reserved := s.reserved + {TransferKey(info)}, senders := s.senders + [info])
    case Send(i) => s.(senders := Without(s.senders, i), ch := s.ch + [s.senders[i]])
    case Receive => s.(ch := s.ch[1..], hand := [s.ch[0]])
    case Invoke => s.(hand := s.hand[1..], running := s.running + [s.hand[0]])
    case InvokeFails => s.(hand := [], lost := s.lost + s.hand, loopEnded := true)
    case Finish(i) => s.(running := Without(s.running, i), reserved := s.reserved - {TransferKey(s.running[i])})
  }

  predicate Executable(s: State, actions: seq<Action>)
    decreases |actions|, 0
  {
    actions == [] ||
    (Executable(s, actions[..|actions| - 1]) && Enabled(Execute(s, actions[..|actions| - 1]), actions[|actions| - 1]))
  }

  function Execute(s: State, actions: seq<Action>): State
    requires Executable(s, actions)
    decreases |actions|, 1
  {
    if actions == [] then s else Next(Execute(s, actions[..|actions| - 1]), actions[|actions| - 1])
  }

  /** How many of the transfers have the key. */
  function Count(infos: seq<Info>, k: string): nat {
    if infos == [] then 0
    else Count(infos[..|infos| - 1], k) + (if TransferKey(infos[|infos| - 1]) == k then 1 else 0)
  }

  function InFlight(s: State, k: string): nat {
    Count(s.senders, k) + Count(s.ch, k) + Count(s.hand, k) + Count(s.running, k) + Count(s.lost, k)
  }

  lemma {:induction false} CountAppend(a: seq<Info>, b: seq<Info>, k: string)
    ensures Count(a + b, k) == Count(a, k) + Count(b, k)
  {
    if b == [] {
      assert a + b == a;
    } else {
      CountAppend(a, b[..|b| - 1], k);
      assert (a + b)[..|a + b| - 1] == a + b[..|b| - 1];
    }
  }

  lemma CountOne(i: Info, k: string)
    ensures Count([i], k) == if TransferKey(i) == k then 1 else 0
  {
    assert [i][..0] == [];
  }

  lemma CountWithout(infos: seq<Info>, i: nat, k: string)
    requires i < |infos|
    ensures Count(infos, k) == Count(Without(infos, i), k) + Count([infos[i]], k)
  {
    CountAppend(infos[..i], infos[i + 1..], k);
    CountAppend(infos[..i], [infos[i]], k);
    CountAppend(infos[..i] + [infos[i]], infos[i + 1..], k);
    assert infos == infos[..i] + [infos[i]] + infos[i + 1..];
  }

  /** Moving one transfer from a list to the end of another. */
  lemma CountMove(from: seq<Info>, i: nat, to: seq<Info>, k: string)
    requires i < |from|
    ensures Count(Without(from, i), k) + Count(to + [from[i]], k) == Count(from, k) + Count(to, k)
  {
    CountWithout(from, i, k);
    CountAppend(to, [from[i]], k);
  }

  /** Every reserved key has exactly one transfer in flight, and no other key has
      any. */
  ghost predicate OneEach(s: State) {
    forall k :: InFlight(s, k) == if k in s.reserved then 1 else 0
  }

  lemma MovesConserve(s: State, a: Action, k: string)
    requires Enabled(s, a) && !a.Push? && !a.Finish?
    ensures InFlight(Next(s, a), k) == InFlight(s, k) && Next(s, a).reserved == s.reserved
  {
    hide TransferKey;
    match a
    case Send(i) => CountMove(s.senders, i, s.ch, k);
    case Receive =>
      CountMove(s.ch, 0, [], k);
      assert Without(s.ch, 0) == s.ch[1..] && [] + [s.ch[0]] == [s.ch[0]];
    case Invoke =>
      CountMove(s.hand, 0, s.running, k);
      assert Without(s.hand, 0) == s.hand[1..];
    case InvokeFails => CountAppend(s.lost, s.hand, k);
  }

  lemma StepKeepsOneEach(s: State, a: Action)
    requires OneEach(s) && Enabled(s, a)
    ensures OneEach(Next(s, a))
  {
    hide TransferKey, InFlight;
    forall k
      ensures InFlight(Next(s, a), k) == if k in Next(s, a).reserved then 1 else 0
    {
      assert InFlight(s, k) == if k in s.reserved then 1 else 0;
      match a
      case Push(info) =>
        if TransferKey(info) !in s.reserved {
          PushCounts(s, info, k);
        }
      case Finish(i) => FinishCounts(s, i, k);
      case _ => MovesConserve(s, a, k);
    }
  }

  lemma PushCounts(s: State, info: Info, k: string)
    requires TransferKey(info) !in s.reserved
    ensures InFlight(Next(s, Push(info)), k) == InFlight(s, k) + (if TransferKey(info) == k then 1 else 0)
  {
    hide TransferKey;
    CountAppend(s.senders, [info], k);
    CountOne(info, k);
  }

  lemma FinishCounts(s: State, i: nat, k: string)
    requires Enabled(s, Finish(i))
    ensures var s' := Next(s, Finish(i));
            InFlight(s, k) - InFlight(s', k) == if k == TransferKey(s.running[i]) then 1 else 0
  {
    hide TransferKey;
    CountWithout(s.running, i, k);
    CountOne(s.running[i], k);
  }

  lemma {:induction false} RunKeepsOneEach(s: State, actions: seq<Action>)
    requires OneEach(s) && Executable(s, actions)
    ensures OneEach(Execute(s, actions))
  {
    if actions != [] {
      RunKeepsOneEach(s, actions[..|actions| - 1]);
      StepKeepsOneEach(Execute(s, actions[..|actions| - 1]), actions[|actions| - 1]);
    }
  }

  /** In every interleaving, at most one transfer of a key is in flight, and a
      push of that key is dropped exactly while there is one. */
  lemma {:induction false} AtMostOneUploadPerKey(actions: seq<Action>, info: Info)
    requires Executable(INITIAL, actions)
    ensures var s := Execute(INITIAL, actions);
            && InFlight(s, TransferKey(info)) <= 1
            && (Next(s, Push(info)) == s <==> InFlight(s, TransferKey(info)) == 1)
  {
    forall k
      ensures InFlight(INITIAL, k) == 0
    {
    }
    RunKeepsOneEach(INITIAL, actions);
    var s := Execute(INITIAL, actions);
    assert InFlight(s, TransferKey(info)) == if TransferKey(info) in s.reserved then 1 else 0;
  }

  /** For transfers whose host and bucket hold no NUL this is one upload of an
      object, not just of a key string. */
  lemma SameKeyIsSameObject(a: Info, b: Info)
    requires NulFree(a.host) && NulFree(a.bucket) && NulFree(b.host) && NulFree(b.bucket)
    ensures TransferKey(a) == TransferKey(b) <==> a == b
  {
    var f, g := [a.host, a.bucket, a.s3Path], [b.host, b.bucket, b.s3Path];
    JoinInjective(f, g);
    if f == g {
      assert f[0] == g[0] && f[1] == g[1] && f[2] == g[2];
    }
  }

  // ---------- Which keys are freed again ----------

  /** What every reachable state satisfies: one transfer for each reserved key;
      the pool is never over its size; the loop holds nothing once it has ended,
      and has lost nothing before. */
  ghost predicate Inv(s: State) {
    && OneEach(s) && |s.running| <= POOL_SIZE
    && (s.loopEnded ==> s.hand == []) && (!s.loopEnded ==> s.lost == [])
  }

  lemma StepKeepsInv(s: State, a: Action)
    requires Inv(s) && Enabled(s, a)
    ensures Inv(Next(s, a))
  {
    StepKeepsOneEach(s, a);
  }

  lemma {:induction false} ReachableInv(actions: seq<Action>)
    requires Executable(INITIAL, actions)
    ensures Inv(Execute(INITIAL, actions))
  {
    if actions == [] {
      assert forall k :: InFlight(INITIAL, k) == 0;
    } else {
      ReachableInv(actions[..|actions| - 1]);
      StepKeepsInv(Execute(INITIAL, actions[..|actions| - 1]), actions[|actions| - 1]);
    }
  }

  /** The bounds of the protocol, over every run: 1000 transfers in the channel,
      100 running, and one in the hands of the loop. */
  lemma {:induction false} BoundsHold(actions: seq<Action>)
    requires Executable(INITIAL, actions)
    ensures var s := Execute(INITIAL, actions);
            |s.ch| <= 1000 && |s.running| <= 100 && |s.hand| <= 1
  {
    if actions != [] {
      BoundsHold(actions[..|actions| - 1]);
    }
  }

  lemma ExecuteOneMore(s: State, actions: seq<Action>, a: Action)
    requires Executable(s, actions) && Enabled(Execute(s, actions), a)
    ensures Executable(s, actions + [a]) && Execute(s, actions + [a]) == Next(Execute(s, actions), a)
  {
    hide Enabled, Next;
    assert (actions + [a])[..|actions + [a]| - 1] == actions;
  }

  lemma {:induction false} ExecuteCons(s: State, a: Action, rest: seq<Action>)
    requires Enabled(s, a) && Executable(Next(s, a), rest)
    ensures Executable(s, [a] + rest) && Execute(s, [a] + rest) == Execute(Next(s, a), rest)
  {
    hide Enabled, Next;
    if rest == [] {
      ExecuteOneMore(s, [], a);
      assert [] + [a] == [a] + rest;
    } else {
      var front, last := rest[..|rest| - 1], rest[|rest| - 1];
      ExecuteCons(s, a, front);
      ExecuteOneMore(s, [a] + front, last);
      assert [a] + rest == [a] + front + [last];
    }
  }

  /** The transfers that only a live loop could bring to the pool. */
  function Waiting(s: State, k: string): nat {
    Count(s.senders, k) + Count(s.ch, k) + Count(s.lost, k)
  }

  lemma {:induction false} CountedIsThere(infos: seq<Info>, k: string) returns (i: nat)
    requires Count(infos, k) > 0
    ensures i < |infos| && TransferKey(infos[i]) == k
  {
    if TransferKey(infos[|infos| - 1]) == k {
      i := |infos| - 1;
    } else {
      i := CountedIsThere(infos[..|infos| - 1], k);
    }
  }

  lemma {:induction false} ThereIsCounted(infos: seq<Info>, i: nat)
    requires i < |infos|
    ensures Count(infos, TransferKey(infos[i])) > 0
  {
    if i < |infos| - 1 {
      ThereIsCounted(infos[..|infos| - 1], i);
    }
  }

  /** The next step towards freeing a key that is not in the pool: make room in
      the pool, hand over, receive, or send. */
  function Towards(s: State, sender: nat): Action {
    if s.hand != [] then (if |s.running| < POOL_SIZE then Invoke else Finish(0))
    else if s.ch != [] then Receive
    else Send(sender)
  }

  lemma TowardsKeepsKey(s: State, sender: nat, k: string)
    requires Inv(s) && !s.loopEnded && k in s.reserved && Count(s.running, k) == 0
    requires s.hand == [] && s.ch == [] ==> sender < |s.senders|
    ensures var a := Towards(s, sender);
            Enabled(s, a) && !Next(s, a).loopEnded && k in Next(s, a).reserved
  {
    if Towards(s, sender) == Finish(0) {
      ThereIsCounted(s.running, 0);
    }
  }

  /** While the loop lives, every reserved key can be freed. */
  lemma {:induction false} LiveLoopFrees(s: State, k: string) returns (actions: seq<Action>)
    requires Inv(s) && !s.loopEnded && k in s.reserved
    ensures Executable(s, actions) && k !in Execute(s, actions).reserved
    decreases |s.senders|, |s.ch|, |s.hand|, |s.running|
  {
    assert InFlight(s, k) == 1;
    if Count(s.running, k) > 0 {
      actions := RunningKeyIsFreed(s, k);
    } else {
      var sender := 0;
      if s.hand == [] && s.ch == [] {
        sender := CountedIsThere(s.senders, k);
      }
      var a := Towards(s, sender);
      TowardsKeepsKey(s, sender, k);
      StepKeepsInv(s, a);
      var rest := LiveLoopFrees(Next(s, a), k);
      ExecuteCons(s, a, rest);
      actions := [a] + rest;
    }
  }

  lemma RunningKeyIsFreed(s: State, k: string) returns (actions: seq<Action>)
    requires Count(s.running, k) > 0
    ensures Executable(s, actions) && k !in Execute(s, actions).reserved
  {
    var i := CountedIsThere(s.running, k);
    ExecuteOneMore(s, [], Finish(i));
    actions := [] + [Finish(i)];
  }

  lemma StepKeepsWaiting(s: State, a: Action, k: string)
    requires OneEach(s) && Enabled(s, a) && s.loopEnded && s.hand == [] && Waiting(s, k) > 0
    ensures Next(s, a).loopEnded && Next(s, a).hand == [] && Waiting(Next(s, a), k) > 0
  {
    match a
    case Push(info) => CountAppend(s.senders, [info], k);
    case Send(i) => CountWithout(s.senders, i, k); CountAppend(s.ch, [s.senders[i]], k);
    case Finish(i) =>
  }

  /** Once handing over to the pool has failed, the loop is gone: whatever was
      waiting then stays reserved for good, and every later push of it is
      dropped. */
  lemma {:induction false} EndedLoopBlocksKeys(s: State, actions: seq<Action>, info: Info)
    requires Inv(s) && Executable(s, actions)
    requires s.loopEnded && Waiting(s, TransferKey(info)) > 0
    ensures var s' := Execute(s, actions);
            && Inv(s') && s'.loopEnded && Waiting(s', TransferKey(info)) > 0
            && TransferKey(info) in s'.reserved && Next(s', Push(info)) == s'
  {
    if actions != [] {
      var front, a := actions[..|actions| - 1], actions[|actions| - 1];
      EndedLoopBlocksKeys(s, front, info);
      StepKeepsInv(Execute(s, front), a);
      StepKeepsWaiting(Execute(s, front), a, TransferKey(info));
    }
    var s' := Execute(s, actions);
    assert InFlight(s', TransferKey(info)) == if TransferKey(info) in s'.reserved then 1 else 0;
  }

  /** Some continuation frees the key. */
  ghost predicate CanBeFreed(s: State, k: string) {
    exists actions :: Executable(s, actions) && k !in Execute(s, actions).reserved
  }

  /** In every reachable state, a reserved key can still be freed unless the loop
      has ended with the key waiting, and never otherwise. */
  lemma {:induction false} FreedUnlessLoopEnded(run: seq<Action>, info: Info)
    requires Executable(INITIAL, run) && TransferKey(info) in Execute(INITIAL, run).reserved
    ensures var s := Execute(INITIAL, run);
            CanBeFreed(s, TransferKey(info)) <==> !(s.loopEnded && Waiting(s, TransferKey(info)) > 0)
  {
    var s, k := Execute(INITIAL, run), TransferKey(info);
    ReachableInv(run);
    assert InFlight(s, k) == 1;
    if s.loopEnded && Waiting(s, k) > 0 {
      forall actions | Executable(s, actions)
        ensures k in Execute(s, actions).reserved
      {
        EndedLoopBlocksKeys(s, actions, info);
      }
    } else if s.loopEnded {
      var actions := RunningKeyIsFreed(s, k);
    } else {
      var actions := LiveLoopFrees(s, k);
    }
  }

  function FailedHandOver(info: Info): seq<Action> {
    [Push(info), Send(0), Receive, InvokeFails]
  }

  lemma RunStep(s: State, actions: seq<Action>, k: nat)
    requires k < |actions| && Executable(s, actions[..k]) && Enabled(Execute(s, actions[..k]), actions[k])
    ensures Executable(s, actions[..k + 1])
    ensures Execute(s, actions[..k + 1]) == Next(Execute(s, actions[..k]), actions[k])
  {
    hide Enabled, Next;
    ExecuteOneMore(s, actions[..k], actions[k]);
    assert actions[..k + 1] == actions[..k] + [actions[k]];
  }

  /** One failed hand-over is enough to get there. */
  lemma {:induction false} LoopCanEnd(info: Info)
    ensures Executable(INITIAL, FailedHandOver(info))
    ensures var s := Execute(INITIAL, FailedHandOver(info));
            s.loopEnded && TransferKey(info) in s.reserved && Waiting(s, TransferKey(info)) > 0
  {
    var run := FailedHandOver(info);
    assert run[..0] == [];
    RunStep(INITIAL, run, 0);
    RunStep(INITIAL, run, 1);
    RunStep(INITIAL, run, 2);
    RunStep(INITIAL, run, 3);
    assert run[..4] == run;
    assert Execute(INITIAL, run).lost == [info];
    ThereIsCounted([info], 0);
  }
}
