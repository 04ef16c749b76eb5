/** Choosing the cache rule of a path. The two matchers of the source differ only
    in that path rules never ignore case; `R` is what else a rule carries, and
    `lower` stands for the lower-casing of strings. */
module CacheRules {
  import opened Sequences

  datatype CacheType = Suffix | Path | Dir | All | Unknown(name: string)

  datatype Rule<R> = Rule(cacheType: CacheType, paths: seq<string>, ignoreCase: bool, weight: int, settings: R)

  /** No rules at all, an unknown rule type, or the chosen rule. */
  datatype Choice<R> = NoRules | UnknownType(name: string) | Chosen(rule: Rule<R>)

  function TrimLeft(path: string): string {
    if path != "" && path[0] == '/' then TrimLeft(path[1..]) else path
  }

  predicate HasSuffix(s: string, t: string) {
    |t| <= |s| && s[|s| - |t|..] == t
  }

  predicate HasPrefix(s: string, t: string) {
    t <= s
  }

  /** One path pattern of a suffix, path or dir rule. */
  predicate Fits(cacheType: CacheType, path: string, rpath: string) {
    match cacheType
    case Suffix => HasSuffix(path, rpath)
    case Path => path == rpath
    case Dir => HasPrefix(path, rpath)
    case All => false
    case Unknown(_) => false
  }

  predicate FitsFolded(r: Rule, path: string, rpath: string, lower: string -> string) {
    if r.ignoreCase then Fits(r.cacheType, lower(path), lower(rpath)) else Fits(r.cacheType, path, rpath)
  }

  /** A suffix, path or dir rule with a pattern that fits the path. */
  predicate Applies(r: Rule, path: string, lower: string -> string) {
    exists rpath :: rpath in r.paths && FitsFolded(r, path, rpath, lower)
  }

  /** When a rule applies: some pattern is a suffix of the path, the path itself,
      or a prefix of it, by the type of the rule; both are lower-cased first if the
      rule ignores case. Rules of other types never apply. */
  lemma {:induction false} AppliesExactly<R>(r: Rule<R>, path: string, lower: string -> string)
    ensures Applies(r, path, lower) <==>
            exists rpath :: rpath in r.paths &&
              var p, q := if r.ignoreCase then lower(path) else path, if r.ignoreCase then lower(rpath) else rpath;
              match r.cacheType
              case Suffix => exists x :: p == x + q
              case Path => p == q
              case Dir => exists x :: p == q + x
              case _ => false
  {
    forall p: string, q: string
      ensures HasSuffix(p, q) <==> exists x :: p == x + q
      ensures HasPrefix(p, q) <==> exists x :: p == q + x
    {
      if HasSuffix(p, q) {
        assert p == p[..|p| - |q|] + q;
      }
      if HasPrefix(p, q) {
        assert p == q + p[|q|..];
      }
      if x :| p == x + q {
        assert p[|x|..] == q;
      }
      if x :| p == q + x {
        assert p[..|q|] == q;
      }
    }
  }

  function Slashes(n: nat): string {
    seq(n, _ => '/')
  }

  /** All leading slashes are removed, and nothing else. */
  lemma {:induction false} TrimLeftIsExact(path: string)
    ensures TrimLeft(path) == "" || TrimLeft(path)[0] != '/'
    ensures exists n :: path == Slashes(n) + TrimLeft(path)
  {
    if path != "" && path[0] == '/' {
      TrimLeftIsExact(path[1..]);
      var n: nat :| path[1..] == Slashes(n) + TrimLeft(path[1..]);
      assert path == ['/'] + path[1..];
      assert Slashes(n + 1) == ['/'] + Slashes(n);
      assert path == Slashes(n + 1) + TrimLeft(path);
    } else {
      assert path == Slashes(0) + path;
    }
  }

  method AnyPathFits<R>(r: Rule<R>, path: string, lower: string -> string) returns (fits: bool)
    ensures fits <==> Applies(r, path, lower)
  {
    for i := 0 to |r.paths|
      invariant forall j | 0 <= j < i :: !FitsFolded(r, path, r.paths[j], lower)
    {
      if FitsFolded(r, path, r.paths[i], lower) {
        return true;
      }
    }
    return false;
  }

  /** The matcher's loop: `standby` is the rule returned when none applies. */
  function ChooseFrom<R>(rules: seq<Rule<R>>, i: nat, path: string, lower: string -> string,
      standby: Rule<R>): Choice<R>
    requires i <= |rules|
    decreases |rules| - i
  {
    if i == |rules| then Chosen(standby)
    else if rules[i].cacheType.Unknown? then UnknownType(rules[i].cacheType.name)
    else if Applies(rules[i], path, lower) then Chosen(rules[i])
    else ChooseFrom(rules, i + 1, path, lower, if rules[i].cacheType.All? then rules[i] else standby)
  }

  /** `zero` is the zero value of a rule. */
  function Choose<R>(rules: seq<Rule<R>>, urlPath: string, lower: string -> string, zero: Rule<R>): Choice<R> {
    if rules == [] then NoRules else ChooseFrom(rules, 0, TrimLeft(urlPath), lower, zero)
  }

  method MatchRule<R>(rules: seq<Rule<R>>, urlPath: string, lower: string -> string, zero: Rule<R>)
      returns (choice: Choice<R>)
    ensures choice == Choose(rules, urlPath, lower, zero)
  {
    var path := TrimLeft(urlPath);
    if |rules| == 0 {
      return NoRules;
    }
    var defaultRule := zero;
    for i := 0 to |rules|
      invariant Choose(rules, urlPath, lower, zero) == ChooseFrom(rules, i, path, lower, defaultRule)
    {
      var rule := rules[i];
      match rule.cacheType {
        case Unknown(name) =>
          return UnknownType(name);
        case All =>
          defaultRule := rule;
        case _ =>
          var fits := AnyPathFits(rule, path, lower);
          if fits {
            return Chosen(rule);
          }
      }
    }
    return Chosen(defaultRule);
  }

  ghost predicate SortedByWeight<R>(rules: seq<Rule<R>>) {
    forall i, j | 0 <= i < j < |rules| :: rules[i].weight <= rules[j].weight
  }

  /** Position i is the first rule of an unknown type or that applies. */
  ghost predicate Decides<R>(rules: seq<Rule<R>>, i: int, path: string, lower: string -> string) {
    && 0 <= i < |rules|
    && (rules[i].cacheType.Unknown? || Applies(rules[i], path, lower))
    && forall j | 0 <= j < i :: !rules[j].cacheType.Unknown? && !Applies(rules[j], path, lower)
  }

  ghost predicate NoneDecides<R>(rules: seq<Rule<R>>, path: string, lower: string -> string) {
    forall j | 0 <= j < |rules| :: !rules[j].cacheType.Unknown? && !Applies(rules[j], path, lower)
  }

  /** The last "all" rule among the first n, or `zero`. */
  function LastAll<R>(rules: seq<Rule<R>>, n: nat, zero: Rule<R>): Rule<R>
    requires n <= |rules|
  {
    if n == 0 then zero else if rules[n - 1].cacheType.All? then rules[n - 1] else LastAll(rules, n - 1, zero)
  }

  lemma {:induction false} ChooseFromMeans<R>(rules: seq<Rule<R>>, i: nat, path: string, lower: string -> string,
      zero: Rule<R>)
    requires i <= |rules|
    requires forall j | 0 <= j < i :: !rules[j].cacheType.Unknown? && !Applies(rules[j], path, lower)
    ensures var c := ChooseFrom(rules, i, path, lower, LastAll(rules, i, zero));
            && (forall k | Decides(rules, k, path, lower) ::
                  c == if rules[k].cacheType.Unknown? then UnknownType(rules[k].cacheType.name) else Chosen(rules[k]))
            && (NoneDecides(rules, path, lower) ==> c == Chosen(LastAll(rules, |rules|, zero)))
    decreases |rules| - i
  {
    if i < |rules| && !rules[i].cacheType.Unknown? && !Applies(rules[i], path, lower) {
      ChooseFromMeans(rules, i + 1, path, lower, zero);
    } else if i < |rules| {
      assert Decides(rules, i, path, lower);
      assert forall k | Decides(rules, k, path, lower) :: k == i;
    }
  }

  /** The choice is made by the first rule that applies or is of unknown type; if
      there is none, by the last "all" rule, or it is the zero rule. */
  lemma FirstDecidingRuleWins<R>(rules: seq<Rule<R>>, urlPath: string, lower: string -> string, zero: Rule<R>)
    requires rules != []
    ensures var path, c := TrimLeft(urlPath), Choose(rules, urlPath, lower, zero);
            && (forall k | Decides(rules, k, path, lower) ::
                  c == if rules[k].cacheType.Unknown? then UnknownType(rules[k].cacheType.name) else Chosen(rules[k]))
            && (NoneDecides(rules, path, lower) ==> c == Chosen(LastAll(rules, |rules|, zero)))
  {
    ChooseFromMeans(rules, 0, TrimLeft(urlPath), lower, zero);
  }

  lemma {:induction false} SomeoneDecides<R>(rules: seq<Rule<R>>, n: nat, path: string, lower: string -> string)
    requires n <= |rules|
    requires exists j :: 0 <= j < n && (rules[j].cacheType.Unknown? || Applies(rules[j], path, lower))
    ensures exists k :: Decides(rules, k, path, lower)
  {
    if forall j | 0 <= j < n - 1 :: !rules[j].cacheType.Unknown? && !Applies(rules[j], path, lower) {
      assert Decides(rules, n - 1, path, lower);
    } else {
      SomeoneDecides(rules, n - 1, path, lower);
    }
  }

  /** Rule priority, for any sorted list: unless matching fails on an unknown
      type, if some rule applies, the chosen one applies and none that applies
      weighs less; otherwise it is the last "all" rule, or the zero rule. */
  lemma LightestApplicableRuleWins<R>(
      rules: seq<Rule<R>>, urlPath: string, lower: string -> string, zero: Rule<R>)
    requires rules != [] && SortedByWeight(rules)
    ensures var path, c := TrimLeft(urlPath), Choose(rules, urlPath, lower, zero);
            !c.UnknownType? ==>
              if exists r :: r in rules && Applies(r, path, lower)
              then c.Chosen? && c.rule in rules && Applies(c.rule, path, lower) &&
                   forall r | r in rules && Applies(r, path, lower) :: c.rule.weight <= r.weight
              else c == Chosen(LastAll(rules, |rules|, zero))
  {
    var path := TrimLeft(urlPath);
    FirstDecidingRuleWins(rules, urlPath, lower, zero);
    if r :| r in rules && Applies(r, path, lower) {
      var j :| 0 <= j < |rules| && rules[j] == r;
      SomeoneDecides(rules, |rules|, path, lower);
      var k :| Decides(rules, k, path, lower);
      forall q | q in rules && Applies(q, path, lower)
        ensures rules[k].weight <= q.weight
      {
        var i :| 0 <= i < |rules| && rules[i] == q;
        assert k <= i;
      }
    } else if !NoneDecides(rules, path, lower) {
      SomeoneDecides(rules, |rules|, path, lower);
      var k :| Decides(rules, k, path, lower);
      assert rules[k] in rules;
    }
  }

  /** A rule of unknown type comes before every rule that applies. */
  ghost predicate UnknownComesFirst<R>(rules: seq<Rule<R>>, k: int, path: string, lower: string -> string) {
    && 0 <= k < |rules| && rules[k].cacheType.Unknown?
    && forall j | 0 <= j < k :: !Applies(rules[j], path, lower)
  }

  lemma UnknownFirstDecides<R>(rules: seq<Rule<R>>, k: int, path: string, lower: string -> string)
    requires UnknownComesFirst(rules, k, path, lower)
    ensures exists i :: Decides(rules, i, path, lower) && rules[i].cacheType.Unknown?
  {
    SomeoneDecides(rules, k + 1, path, lower);
    var i :| Decides(rules, i, path, lower);
    assert i <= k;
  }

  /** The matcher fails exactly when that is so of some rule. */
  lemma UnknownTypeFailsExactlyWhenFirst<R>(rules: seq<Rule<R>>, urlPath: string, lower: string -> string,
      zero: Rule<R>)
    requires rules != []
    ensures Choose(rules, urlPath, lower, zero).UnknownType? <==>
            exists k :: UnknownComesFirst(rules, k, TrimLeft(urlPath), lower)
  {
    var path := TrimLeft(urlPath);
    FirstDecidingRuleWins(rules, urlPath, lower, zero);
    if k :| UnknownComesFirst(rules, k, path, lower) {
      UnknownFirstDecides(rules, k, path, lower);
    } else if !NoneDecides(rules, path, lower) {
      SomeoneDecides(rules, |rules|, path, lower);
      var i :| Decides(rules, i, path, lower);
      assert !UnknownComesFirst(rules, i, path, lower);
    }
  }

  lemma SortedLastIsHeaviest<R>(rules: seq<Rule<R>>, r: Rule<R>)
    requires rules != [] && SortedByWeight(rules) && r in rules
    ensures r.weight <= rules[|rules| - 1].weight
  {
  }

  predicate DistinctWeights<R>(rules: seq<Rule<R>>) {
    forall i, j | 0 <= i < j < |rules| :: rules[i].weight != rules[j].weight
  }

  lemma SortedListsEndAlike<R>(a: seq<Rule<R>>, b: seq<Rule<R>>)
    requires a != [] && b != [] && SortedByWeight(a) && SortedByWeight(b) && DistinctWeights(a)
    requires a[|a| - 1] in b && b[|b| - 1] in a
    ensures a[|a| - 1] == b[|b| - 1]
  {
    SortedLastIsHeaviest(b, a[|a| - 1]);
    SortedLastIsHeaviest(a, b[|b| - 1]);
    var i :| 0 <= i < |a| && a[i] == b[|b| - 1];
    assert i == |a| - 1;
  }

  lemma FrontsAlike<T>(a: seq<T>, b: seq<T>)
    requires a != [] && b != [] && multiset(a) == multiset(b) && a[|a| - 1] == b[|b| - 1]
    ensures multiset(a[..|a| - 1]) == multiset(b[..|b| - 1])
  {
    DropLast(a);
    DropLast(b);
  }

  lemma SameEmptiness<T>(a: seq<T>, b: seq<T>)
    requires multiset(a) == multiset(b)
    ensures a == [] <==> b == []
    ensures a != [] ==> a[|a| - 1] in b && b[|b| - 1] in a
  {
    assert |multiset(a)| == |a| && |multiset(b)| == |b|;
    if a != [] {
      assert a[|a| - 1] in multiset(b) && b[|b| - 1] in multiset(a);
    }
  }

  lemma FrontIsSorted<R>(a: seq<Rule<R>>)
    requires a != [] && SortedByWeight(a)
    ensures SortedByWeight(a[..|a| - 1])
  {
  }

  /** The sort is not stable, but with distinct weights there is only one sorted
      order, and so one choice, whatever order the rules were given in. */
  lemma {:induction false} SortedOrderIsUnique<R>(a: seq<Rule<R>>, b: seq<Rule<R>>)
    requires multiset(a) == multiset(b) && SortedByWeight(a) && SortedByWeight(b) && DistinctWeights(a)
    ensures a == b
    decreases |a|
  {
    SameEmptiness(a, b);
    if a != [] {
      SortedListsEndAlike(a, b);
      FrontsAlike(a, b);
      FrontIsSorted(a);
      FrontIsSorted(b);
      SortedOrderIsUnique(a[..|a| - 1], b[..|b| - 1]);
      assert a == a[..|a| - 1] + [a[|a| - 1]] && b == b[..|b| - 1] + [b[|b| - 1]];
    }
  }
}
