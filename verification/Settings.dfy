/** Site settings: the files, the in-memory cache of them, the S3 client of each
    site and its load balancer, under any sequence of set, get and delete. */
module Settings {
  import opened Options
  import opened NulKeys
  import opened StorageTarget
  import opened CacheRules

  const GLOBAL := "global"

  datatype Source = Source(endpoint: string, endpointHost: string, endpoints: seq<string>)
  datatype CachePolicy = CachePolicy(enable: bool, ttl: int, stream: bool)
  datatype KeyPolicy = KeyPolicy(ignoreKeyRule: string, keys: seq<string>)

  /** `mode` is the storage mode found in the setting's extra data. */
  datatype Setting = Setting(
    source: Option<Source>, s3: Option<StorageS3>,
    pathRules: seq<Rule<CachePolicy>>, keyRules: seq<Rule<KeyPolicy>>,
    purgeMethod: string, mode: string, parent: string)

  const EMPTY := Setting(None, None, [], [], "", "", "")

  /** Client and balancer are represented by what they were built from. */
  datatype World = World(
    files: map<string, Setting>, cache: map<string, Setting>,
    clients: map<string, StorageS3>, balancers: map<string, seq<string>>)

  /** A site other than the global group that inherits the global storage. */
  predicate Inherits(host: string, s: Setting) {
    host != GLOBAL && s.mode == "global"
  }

  predicate Connects(s3: Option<StorageS3>) {
    s3.Some? && s3.value.endpoint != ""
  }

  /** strings.Split with a one-character separator. */
  function Split(s: string, c: char): (r: seq<string>)
    ensures |r| > 0
  {
    if s == "" then [""]
    else
      var rest, last := Split(s[..|s| - 1], c), s[|s| - 1];
      if last == c then rest + [""] else rest[..|rest| - 1] + [rest[|rest| - 1] + [last]]
  }

  function JoinWith(c: char, pieces: seq<string>): string
    requires pieces != []
  {
    if |pieces| == 1 then pieces[0] else JoinWith(c, pieces[..|pieces| - 1]) + [c] + pieces[|pieces| - 1]
  }

  lemma JoinOneMore(c: char, pieces: seq<string>, piece: string)
    requires pieces != []
    ensures JoinWith(c, pieces + [piece]) == JoinWith(c, pieces) + [c] + piece
  {
    assert (pieces + [piece])[..|pieces|] == pieces;
  }

  function Extended(pieces: seq<string>, x: char): seq<string>
    requires pieces != []
  {
    pieces[..|pieces| - 1] + [pieces[|pieces| - 1] + [x]]
  }

  lemma JoinExtended(c: char, pieces: seq<string>, x: char)
    requires pieces != []
    ensures JoinWith(c, Extended(pieces, x)) == JoinWith(c, pieces) + [x]
  {
    var n := |pieces| - 1;
    if n > 0 {
      JoinOneMore(c, pieces[..n], pieces[n] + [x]);
      assert JoinWith(c, pieces[..n]) + [c] + (pieces[n] + [x]) == JoinWith(c, pieces[..n]) + [c] + pieces[n] + [x];
    }
  }

  lemma ExtendedIsFree(c: char, pieces: seq<string>, x: char)
    requires pieces != [] && x != c && forall piece | piece in pieces :: c !in piece
    ensures forall piece | piece in Extended(pieces, x) :: c !in piece
  {
    assert pieces[|pieces| - 1] in pieces;
  }

  /** The pieces are free of the separator and give the string back. */
  lemma {:induction false} SplitIsExact(s: string, c: char)
    ensures JoinWith(c, Split(s, c)) == s
    ensures forall piece | piece in Split(s, c) :: c !in piece
  {
    if s != "" {
      var rest, last := Split(s[..|s| - 1], c), s[|s| - 1];
      SplitIsExact(s[..|s| - 1], c);
      assert s == s[..|s| - 1] + [last];
      if last == c {
        JoinOneMore(c, rest, "");
      } else {
        assert Split(s, c) == Extended(rest, last);
        JoinExtended(c, rest, last);
        ExtendedIsFree(c, rest, last);
      }
    }
  }

  /** What a file holds: the derived endpoint list is not written. */
  function Written(s: Setting): Setting {
    if s.source.Some? then s.(source := Some(s.source.value.(endpoints := []))) else s
  }

  /** What loading a file yields: the endpoint list is derived again. */
  function Loaded(f: Setting): Setting {
    if f.source.Some? then f.(source := Some(f.source.value.(endpoints := Split(f.source.value.endpoint, ',')))) else f
  }

  /** The global connection with the site's own bucket, if it names one. */
  function Resolve(globalS3: StorageS3, site: Option<StorageS3>): StorageS3 {
    if site.Some? && site.value.bucket != "" then globalS3.(bucket := site.value.bucket) else globalS3
  }

  // ---------- The operations as functions of the world ----------

  function AfterLoad(w: World, host: string): World {
    if host in w.cache || host !in w.files then w
    else
      var s := Loaded(w.files[host]);
      w.(cache := w.cache[host := s],
         clients := if Connects(s.s3) then w.clients[host := s.s3.value] else w.clients)
  }

  function AfterGet(w: World, host: string): World
    decreases host != GLOBAL
  {
    var w1 := AfterLoad(w, host);
    if host !in w1.cache || !Inherits(host, w1.cache[host]) then w1
    else
      var w2 := AfterGet(w1, GLOBAL);
      var g := GetResult(w1, GLOBAL);
      if g.s3.None? then w2
      else
        var resolved := Resolve(g.s3.value, w1.cache[host].s3);
        if resolved.endpoint != "" && (host !in w2.clients || Fingerprint(w2.clients[host]) != Fingerprint(resolved))
        then w2.(clients := w2.clients[host := resolved])
        else w2
  }

  function GetResult(w: World, host: string): Setting
    decreases host != GLOBAL
  {
    var w1 := AfterLoad(w, host);
    if host !in w1.cache then EMPTY
    else
      var s := w1.cache[host];
      if !Inherits(host, s) then s
      else
        var g := GetResult(w1, GLOBAL);
        if g.s3.None? then s else s.(s3 := Some(Resolve(g.s3.value, s.s3)))
  }

  /** A set request: the setting asked for, its endpoint as normalised (none when
      it is invalid), the sorted rules, the lower-cased purge method, and whether
      the file could be written. */
  datatype Request = Request(
    host: string, setting: Setting, normalized: Option<string>,
    pathRules: seq<Rule<CachePolicy>>, keyRules: seq<Rule<KeyPolicy>>, purgeMethod: string, writeOk: bool)

  /** sort.Slice by weight: some sorted permutation. */
  ghost predicate SortsRules(r: Request) {
    && multiset(r.pathRules) == multiset(r.setting.pathRules) && SortedByWeight(r.pathRules)
    && multiset(r.keyRules) == multiset(r.setting.keyRules) && SortedByWeight(r.keyRules)
  }

  predicate Rejected(r: Request) {
    Connects(r.setting.s3) && r.normalized.None?
  }

  /** What a set request puts in the file. */
  function Prepared(r: Request): Setting
    requires !Rejected(r)
  {
    var s3 :=
      if Connects(r.setting.s3) then Some(r.setting.s3.value.(endpoint := r.normalized.value)) else r.setting.s3;
    var bucket := if s3.Some? then s3.value.bucket else "";
    Written(r.setting.(
      s3 := if Inherits(r.host, r.setting) then Some(StorageS3("", "", bucket, "", "")) else s3,
      pathRules := r.pathRules, keyRules := r.keyRules, purgeMethod := r.purgeMethod))
  }

  function AfterSet(w: World, r: Request): World {
    if Rejected(r) then w
    else
      var w1 := AfterLoad(w, r.host);
      if !r.writeOk then w1
      else
        var s := Prepared(r);
        World(w1.files[r.host := s], w1.cache - {r.host},
              if Connects(s.s3) then w1.clients[r.host := s.s3.value] else w1.clients, w1.balancers - {r.host})
  }

  function AfterDel(w: World, host: string): World {
    World(w.files - {host}, w.cache - {host}, w.clients, w.balancers - {host})
  }

  /** GetBackend builds a balancer for a site with several endpoints. */
  function AfterBalance(w: World, host: string): World
    requires GetResult(w, host).source.Some?
  {
    var endpoints := GetResult(w, host).source.value.endpoints;
    var w1 := AfterGet(w, host);
    if |endpoints| == 1 || host in w1.balancers then w1 else w1.(balancers := w1.balancers[host := endpoints])
  }

  class SettingStore {
    var files: map<string, Setting>
    var cache: map<string, Setting>
    var clients: map<string, StorageS3>
    var balancers: map<string, seq<string>>

    function View(): World
      reads this
    {
      World(files, cache, clients, balancers)
    }

    constructor ()
      ensures View() == World(map[], map[], map[], map[])
    {
      files, cache, clients, balancers := map[], map[], map[], map[];
    }

    method ResetClient(host: string, config: StorageS3)
      modifies this`clients
      ensures clients == old(clients)[host := config]
    {
      clients := clients[host := config];
    }

    /** GetStorageCacheSettingMap: the cached setting, or the file's, loaded. */
    method Load(host: string) returns (s: Option<Setting>)
      modifies this`cache, this`clients
      ensures View() == AfterLoad(old(View()), host)
      ensures s == if host in cache then Some(cache[host]) else None
    {
      if host in cache {
        return Some(cache[host]);
      }
      if host !in files {
        return None;
      }
      var item := Loaded(files[host]);
      if Connects(item.s3) {
        ResetClient(host, item.s3.value);
      }
      cache := cache[host := item];
      return Some(item);
    }

    method Get(host: string) returns (s: Setting)
      modifies this`cache, this`clients
      ensures View() == AfterGet(old(View()), host)
      ensures s == GetResult(old(View()), host)
      decreases host != GLOBAL
    {
      var loaded := Load(host);
      if loaded.None? {
        return EMPTY;
      }
      s := loaded.value;
      if Inherits(host, s) {
        var globalSetting := Get(GLOBAL);
        if globalSetting.s3.Some? {
          var globalStorage := Resolve(globalSetting.s3.value, s.s3);
          s := s.(s3 := Some(globalStorage));
          if globalStorage.endpoint != "" {
            if host !in clients || Fingerprint(clients[host]) != Fingerprint(globalStorage) {
              ResetClient(host, globalStorage);
            }
          }
        }
      }
    }

    method Set(r: Request) returns (ok: bool)
      modifies this
      ensures View() == AfterSet(old(View()), r)
      ensures ok <==>
              r.writeOk && (r.setting.s3.Some? && r.setting.s3.value.endpoint != "" ==> r.normalized.Some?)
    {
      var setting := r.setting;
      if Connects(setting.s3) {
        if r.normalized.None? {
          return false;
        }
        setting := setting.(s3 := Some(setting.s3.value.(endpoint := r.normalized.value)));
      }
      var current := Load(r.host);
      if Inherits(r.host, setting) {
        var bucket := "";
        if setting.s3.Some? {
          bucket := setting.s3.value.bucket;
        }
        setting := setting.(s3 := Some(StorageS3("", "", bucket, "", "")));
      }
      setting := setting.(pathRules := r.pathRules, keyRules := r.keyRules, purgeMethod := r.purgeMethod);
      if !r.writeOk {
        return false;
      }
      files := files[r.host := Written(setting)];
      if Connects(setting.s3) {
        ResetClient(r.host, setting.s3.value);
      }
      cache := cache - {r.host};
      balancers := balancers - {r.host};
      return true;
    }

    method Del(host: string)
      modifies this
      ensures View() == AfterDel(old(View()), host)
    {
      files := files - {host};
      cache := cache - {host};
      balancers := balancers - {host};
    }

    method Balance(host: string)
      requires GetResult(View(), host).source.Some?
      modifies this
      ensures View() == AfterBalance(old(View()), host)
    {
      var s := Get(host);
      if |s.source.value.endpoints| != 1 && host !in balancers {
        balancers := balancers[host := s.source.value.endpoints];
      }
    }
  }

  // ---------- Agreement with the files ----------

  /** What a site's setting ought to be, read off the files alone. */
  function Effective(files: map<string, Setting>, host: string): Setting {
    if host !in files then EMPTY
    else
      var s := Loaded(files[host]);
      if Inherits(host, s) && GLOBAL in files && files[GLOBAL].s3.Some?
      then s.(s3 := Some(Resolve(files[GLOBAL].s3.value, s.s3)))
      else s
  }

  /** Every file as Set leaves it. */
  ghost predicate FilesOk(files: map<string, Setting>) {
    forall h | h in files ::
      && SortedByWeight(files[h].pathRules) && SortedByWeight(files[h].keyRules)
      && (Inherits(h, files[h]) ==> !Connects(files[h].s3))
  }

  ghost predicate CacheOk(w: World) {
    forall h | h in w.cache :: h in w.files && w.cache[h] == Loaded(w.files[h])
  }

  /** A cached site with its own storage has the client of that storage. */
  ghost predicate ClientsOk(w: World) {
    forall h | h in w.cache && !Inherits(h, w.cache[h]) && Connects(w.cache[h].s3) ::
      h in w.clients && w.clients[h] == w.cache[h].s3.value
  }

  /** A balancer serves the endpoints of the file. */
  ghost predicate BalancersOk(w: World) {
    forall h | h in w.balancers ::
      && h in w.files && w.files[h].source.Some?
      && w.balancers[h] == Split(w.files[h].source.value.endpoint, ',')
      && |w.balancers[h]| > 1
  }

  ghost predicate Inv(w: World) {
    FilesOk(w.files) && CacheOk(w) && ClientsOk(w) && BalancersOk(w)
  }

  lemma LoadKeepsInv(w: World, host: string)
    requires Inv(w)
    ensures Inv(AfterLoad(w, host)) && AfterLoad(w, host).files == w.files
    ensures AfterLoad(w, host).balancers == w.balancers
    ensures host in AfterLoad(w, host).cache <==> host in w.files
  {
  }

  lemma GlobalGet(w: World)
    requires Inv(w)
    ensures AfterGet(w, GLOBAL) == AfterLoad(w, GLOBAL)
    ensures GetResult(w, GLOBAL) == Effective(w.files, GLOBAL)
    ensures Effective(w.files, GLOBAL).s3 == if GLOBAL in w.files then w.files[GLOBAL].s3 else None
  {
    LoadKeepsInv(w, GLOBAL);
  }

  lemma NewClientKeepsInv(w: World, host: string, config: StorageS3)
    requires Inv(w) && host in w.cache && Inherits(host, w.cache[host])
    ensures Inv(w.(clients := w.clients[host := config]))
  {
  }

  /** Get returns what the files say, and changes neither them nor the
      agreement of cache and clients with them. */
  lemma {:induction false} GetIsEffective(w: World, host: string)
    requires Inv(w)
    ensures GetResult(w, host) == Effective(w.files, host)
    ensures Inv(AfterGet(w, host))
    ensures AfterGet(w, host).files == w.files && AfterGet(w, host).balancers == w.balancers
  {
    LoadKeepsInv(w, host);
    var w1 := AfterLoad(w, host);
    if host in w1.cache && Inherits(host, w1.cache[host]) {
      GlobalGet(w1);
      LoadKeepsInv(w1, GLOBAL);
      var w2 := AfterLoad(w1, GLOBAL);
      var g := GetResult(w1, GLOBAL);
      if g.s3.Some? {
        NewClientKeepsInv(w2, host, Resolve(g.s3.value, w1.cache[host].s3));
      }
    }
  }

  /** After a get, a returned setting that connects has a client with its
      fingerprint; and, when no field holds NUL, a client of exactly that storage. */
  lemma ClientMatchesAfterGet(w: World, host: string)
    requires Inv(w)
    ensures var s, w' := GetResult(w, host), AfterGet(w, host);
            Connects(s.s3) ==>
              && host in w'.clients
              && Fingerprint(w'.clients[host]) == Fingerprint(s.s3.value)
              && (Separable(TargetFields(w'.clients[host])) && Separable(TargetFields(s.s3.value)) ==>
                    w'.clients[host] == s.s3.value)
  {
    LoadKeepsInv(w, host);
    var s, w' := GetResult(w, host), AfterGet(w, host);
    if Connects(s.s3) {
      if Separable(TargetFields(w'.clients[host])) && Separable(TargetFields(s.s3.value)) {
        FingerprintIdentifies(w'.clients[host], s.s3.value);
      }
    }
  }

  datatype Op = SetOp(r: Request) | GetOp(host: string) | DelOp(host: string) | BalanceOp(host: string)

  ghost predicate Allowed(w: World, op: Op) {
    match op
    case SetOp(r) => SortsRules(r)
    case GetOp(_) => true
    case DelOp(_) => true
    case BalanceOp(host) => GetResult(w, host).source.Some?
  }

  function Perform(w: World, op: Op): World
    requires op.BalanceOp? ==> GetResult(w, op.host).source.Some?
  {
    match op
    case SetOp(r) => AfterSet(w, r)
    case GetOp(host) => AfterGet(w, host)
    case DelOp(host) => AfterDel(w, host)
    case BalanceOp(host) => AfterBalance(w, host)
  }

  lemma SetKeepsInv(w: World, r: Request)
    requires Inv(w) && SortsRules(r)
    ensures Inv(AfterSet(w, r))
  {
    LoadKeepsInv(w, r.host);
  }

  lemma BalanceKeepsInv(w: World, host: string)
    requires Inv(w) && GetResult(w, host).source.Some?
    ensures Inv(AfterBalance(w, host))
  {
    GetIsEffective(w, host);
  }

  lemma PerformKeepsInv(w: World, op: Op)
    requires Inv(w) && Allowed(w, op)
    ensures Inv(Perform(w, op))
  {
    match op
    case SetOp(r) => SetKeepsInv(w, r);
    case GetOp(host) => GetIsEffective(w, host);
    case DelOp(host) =>
    case BalanceOp(host) => BalanceKeepsInv(w, host);
  }

  ghost predicate Executable(w: World, ops: seq<Op>)
    decreases |ops|, 0
  {
    ops == [] ||
    (Executable(w, ops[..|ops| - 1]) && Allowed(Execute(w, ops[..|ops| - 1]), ops[|ops| - 1]))
  }

  ghost function Execute(w: World, ops: seq<Op>): World
    requires Executable(w, ops)
    decreases |ops|, 1
  {
    if ops == [] then w else Perform(Execute(w, ops[..|ops| - 1]), ops[|ops| - 1])
  }

  lemma {:induction false} RunKeepsInv(w: World, ops: seq<Op>)
    requires Inv(w) && Executable(w, ops)
    ensures Inv(Execute(w, ops))
  {
    if ops != [] {
      RunKeepsInv(w, ops[..|ops| - 1]);
      PerformKeepsInv(Execute(w, ops[..|ops| - 1]), ops[|ops| - 1]);
    }
  }

  /** Over every run from an empty store: a get returns what the files say, with
      its rules sorted by weight, and a client that matches what it returns; and
      an existing balancer serves the endpoints it returns. */
  lemma SettingsAgreeWithFiles(ops: seq<Op>, host: string)
    requires Executable(World(map[], map[], map[], map[]), ops)
    ensures var w := Execute(World(map[], map[], map[], map[]), ops);
            var s, w' := GetResult(w, host), AfterGet(w, host);
            && s == Effective(w.files, host)
            && SortedByWeight(s.pathRules) && SortedByWeight(s.keyRules)
            && (Connects(s.s3) ==> host in w'.clients && Fingerprint(w'.clients[host]) == Fingerprint(s.s3.value))
            && (host in w.balancers ==>
                  s.source.Some? && s.source.value.endpoints == w.balancers[host] && |w.balancers[host]| > 1)
  {
    RunKeepsInv(World(map[], map[], map[], map[]), ops);
    var w := Execute(World(map[], map[], map[], map[]), ops);
    GetIsEffective(w, host);
    ClientMatchesAfterGet(w, host);
  }

  /** A successful set is what the next get returns, its endpoints derived and,
      for an inheriting site, its storage resolved against the global one. */
  lemma {:induction false} GetAfterSet(w: World, r: Request)
    requires Inv(w) && SortsRules(r) && !Rejected(r) && r.writeOk
    ensures var s := GetResult(AfterSet(w, r), r.host);
            && s.pathRules == r.pathRules && s.keyRules == r.keyRules && s.purgeMethod == r.purgeMethod
            && s.mode == r.setting.mode && s.parent == r.setting.parent
            && (s.source.Some? <==> r.setting.source.Some?)
            && (s.source.Some? ==>
                  && s.source.value.endpoint == r.setting.source.value.endpoint
                  && s.source.value.endpointHost == r.setting.source.value.endpointHost
                  && s.source.value.endpoints == Split(r.setting.source.value.endpoint, ','))
            && (r.host == "global" || r.setting.mode != "global" ==>
                  if r.setting.s3.Some? && r.setting.s3.value.endpoint != ""
                  then s.s3 == Some(r.setting.s3.value.(endpoint := r.normalized.value))
                  else s.s3 == r.setting.s3)
  {
    SetKeepsInv(w, r);
    LoadKeepsInv(w, r.host);
    GetIsEffective(AfterSet(w, r), r.host);
  }

  /** Choosing a backend makes a balancer exactly for a site with several
      endpoints. */
  lemma {:induction false} BalancerForSeveralEndpoints(w: World, host: string)
    requires Inv(w) && GetResult(w, host).source.Some?
    ensures host in AfterBalance(w, host).balancers <==> |GetResult(w, host).source.value.endpoints| > 1
  {
    GetIsEffective(w, host);
  }

  /** A get after a delete returns the empty setting. The site's client is not
      touched; when the global group is deleted, inheriting sites fall back to
      their own storage. */
  lemma {:induction false} GetAfterDel(ops: seq<Op>, host: string, site: string)
    requires Executable(World(map[], map[], map[], map[]), ops)
    ensures var w := Execute(World(map[], map[], map[], map[]), ops);
            var w' := AfterDel(w, host);
            && GetResult(w', host) == Setting(None, None, [], [], "", "", "") && w'.clients == w.clients
            && (host == GLOBAL && site != GLOBAL && site in w.files ==> GetResult(w', site) == Loaded(w.files[site]))
  {
    RunKeepsInv(World(map[], map[], map[], map[]), ops);
    var w := Execute(World(map[], map[], map[], map[]), ops);
    PerformKeepsInv(w, DelOp(host));
    GetIsEffective(AfterDel(w, host), host);
    GetIsEffective(AfterDel(w, host), site);
  }

  /** Over every run, what a site that inherits gets: the connection of the global
      group, with the site's own bucket if it names one. */
  lemma {:induction false} InheritedStorage(ops: seq<Op>, host: string)
    requires Executable(World(map[], map[], map[], map[]), ops)
    requires var files := Execute(World(map[], map[], map[], map[]), ops).files;
             && host in files && host != "global" && files[host].mode == "global"
             && "global" in files && files["global"].s3.Some?
    ensures var w := Execute(World(map[], map[], map[], map[]), ops);
            var g, own, s3 := w.files["global"].s3.value, w.files[host].s3, GetResult(w, host).s3;
            && s3.Some?
            && s3.value.endpoint == g.endpoint && s3.value.region == g.region
            && s3.value.accessKey == g.accessKey && s3.value.secretKey == g.secretKey
            && s3.value.bucket == if own.Some? && own.value.bucket != "" then own.value.bucket else g.bucket
  {
    hide Executable, Execute, Inv, GetResult;
    RunKeepsInv(World(map[], map[], map[], map[]), ops);
    GetIsEffective(Execute(World(map[], map[], map[], map[]), ops), host);
  }

  /** An inheriting site keeps nothing of its own storage but the bucket. */
  lemma {:induction false} InheritingSiteStoresBucketOnly(w: World, r: Request)
    requires Inv(w) && SortsRules(r) && !Rejected(r) && r.writeOk
    requires r.host != "global" && r.setting.mode == "global"
    ensures var s3 := AfterSet(w, r).files[r.host].s3;
            && s3.Some? && s3.value.endpoint == "" && s3.value.accessKey == "" && s3.value.secretKey == ""
            && s3.value.region == "" && s3.value.bucket == if r.setting.s3.Some? then r.setting.s3.value.bucket else ""
  {
  }

  lemma EffectiveDependsOn(files: map<string, Setting>, files': map<string, Setting>, host: string)
    requires host in files <==> host in files'
    requires host in files ==> files[host] == files'[host]
    requires Inherits(host, Effective(files, host)) ==>
               (GLOBAL in files <==> GLOBAL in files') && (GLOBAL in files ==> files[GLOBAL] == files'[GLOBAL])
    ensures Effective(files, host) == Effective(files', host)
  {
  }

  lemma PerformFiles(w: World, op: Op)
    requires Inv(w) && Allowed(w, op)
    ensures Perform(w, op).files ==
            (match op
             case SetOp(r) => if Rejected(r) || !r.writeOk then w.files else w.files[r.host := Prepared(r)]
             case DelOp(host) => w.files - {host}
             case _ => w.files)
  {
    match op
    case SetOp(r) => LoadKeepsInv(w, r.host);
    case GetOp(h) => GetIsEffective(w, h);
    case DelOp(h) =>
    case BalanceOp(h) => GetIsEffective(w, h);
  }

  /** A set or delete changes what another site gets only if it is of the global
      group and the other site inherits from it. */
  lemma {:induction false} OtherSitesUnaffected(w: World, op: Op, host: string)
    requires Inv(w) && Allowed(w, op)
    requires op.SetOp? ==> op.r.host != host && (op.r.host != GLOBAL || !Inherits(host, Effective(w.files, host)))
    requires op.DelOp? ==> op.host != host && (op.host != GLOBAL || !Inherits(host, Effective(w.files, host)))
    ensures GetResult(Perform(w, op), host) == GetResult(w, host)
  {
    PerformKeepsInv(w, op);
    PerformFiles(w, op);
    EffectiveDependsOn(w.files, Perform(w, op).files, host);
    GetIsEffective(w, host);
    GetIsEffective(Perform(w, op), host);
  }
}
