/** From a request to the name of its cached object: the path rules say whether
    it is cached, the key rules how its query counts. Both see only the path, so
    requests for one path are treated alike. `pathOf` is the decoded path of the
    part before the question mark, `lower` the lower-casing of strings. */
module CacheKeys {
  import opened Options
  import opened QueryCodec
  import opened CacheIdentity
  import opened CachePaths
  import opened Rules = CacheRules
  import opened Settings

  function KeyRuleOf(k: KeyPolicy): KeyRule {
    if k.ignoreKeyRule == "ignore" then Ignore
    else if k.ignoreKeyRule == "keep" then Keep
    else if k.ignoreKeyRule == "keep_specified" then KeepSpecified(k.keys)
    else if k.ignoreKeyRule == "ignore_specified" then IgnoreSpecified(k.keys)
    else Untouched
  }

  /** Zero values of the two kinds of rules. */
  const NO_PATH_RULE := Rule(Unknown(""), [], false, 0, CachePolicy(false, 0, false))
  const NO_KEY_RULE := Rule(Unknown(""), [], false, 0, KeyPolicy("", []))

  /** The key rule of a path; without a matched rule the query is left alone. */
  function KeyRuleFor(keyRules: seq<Rule<KeyPolicy>>, urlPath: string, lower: string -> string): KeyRule {
    match Choose(keyRules, urlPath, lower, NO_KEY_RULE)
    case Chosen(r) => KeyRuleOf(r.settings)
    case _ => Untouched
  }

  /** Path rules do not ignore case. */
  predicate IsCached(pathRules: seq<Rule<CachePolicy>>, urlPath: string) {
    match Choose(pathRules, urlPath, s => s, NO_PATH_RULE)
    case Chosen(r) => r.settings.enable
    case _ => false
  }

  /** The rebuilt request: only a matched rule rebuilds it. */
  ghost function Rebuilt(keyRules: seq<Rule<KeyPolicy>>, urlPath: string, lower: string -> string, p: string): string
    requires IsBytes(p)
  {
    match Choose(keyRules, urlPath, lower, NO_KEY_RULE)
    case Chosen(r) => Rebuild(KeyRuleOf(r.settings), p)
    case _ => p
  }

  /** The name under which the object of a request is cached, if it is. */
  ghost function CachedAs(pathRules: seq<Rule<CachePolicy>>, keyRules: seq<Rule<KeyPolicy>>, md5: string -> string,
                          lower: string -> string, pathOf: string -> string, p: string): Option<string>
    requires IsBytes(p)
  {
    var urlPath := pathOf(FilePart(p));
    if IsCached(pathRules, urlPath) then Some(SavePath(md5, Rebuilt(keyRules, urlPath, lower, p))) else None
  }

  lemma {:induction false} UntouchedStays(p: string)
    requires IsBytes(p)
    ensures Rebuild(Untouched, p) == p
  {
    hide Ext, Encode, ParseQuery;
    var i := IndexOf(p, '?');
    if i < |p| {
      assert p == p[..i] + "?" + p[i + 1..];
      assert '?' in p;
    } else {
      assert p[..i] == p;
    }
  }

  lemma RebuiltByRule(keyRules: seq<Rule<KeyPolicy>>, urlPath: string, lower: string -> string, p: string)
    requires IsBytes(p)
    ensures Rebuilt(keyRules, urlPath, lower, p) == Rebuild(KeyRuleFor(keyRules, urlPath, lower), p)
  {
    hide Rebuild;
    UntouchedStays(p);
  }

  /** Two requests for one path are both cached or both not, and share a cached
      object if and only if their queries agree through the key rule of the path;
      up to a hash collision on the two rebuilt queries. */
  lemma {:induction false} SharedObjectsExactly(
      pathRules: seq<Rule<CachePolicy>>, keyRules: seq<Rule<KeyPolicy>>, md5: string -> string,
      lower: string -> string, pathOf: string -> string, p: string, q: string)
    requires IsBytes(p) && IsBytes(q) && FilePart(p) == FilePart(q)
    requires forall s :: |md5(s)| == 32
    requires IsBytes(RawOf(QueryPart(p))) && IsBytes(RawOf(QueryPart(q)))
    requires var rule := KeyRuleFor(keyRules, pathOf(FilePart(p)), lower);
             var raw, raw' := RawAfter(rule, RawOf(QueryPart(p))), RawAfter(rule, RawOf(QueryPart(q)));
             md5(raw) == md5(raw') ==> raw == raw'
    ensures var a := CachedAs(pathRules, keyRules, md5, lower, pathOf, p);
            var b := CachedAs(pathRules, keyRules, md5, lower, pathOf, q);
            && (a.Some? <==> b.Some?)
            && (a.Some? ==> (a == b <==> SameObject(KeyRuleFor(keyRules, pathOf(FilePart(p)), lower), p, q)))
  {
    hide Rebuild, RawAfter, SavePath, SameObject, Choose, KeyRuleFor, Rebuilt;
    var urlPath := pathOf(FilePart(p));
    RebuiltByRule(keyRules, urlPath, lower, p);
    RebuiltByRule(keyRules, urlPath, lower, q);
    CacheKeyIsExact(md5, KeyRuleFor(keyRules, urlPath, lower), p, q);
  }

  /** On sorted rules, that key rule is the one of a lightest rule that applies
      to the path, or, if none does, of the last "all" rule. Without any rule, and
      when matching fails because a rule of unknown type comes before every rule
      that applies, the query is left alone. */
  lemma {:induction false} KeyRuleIsLightest(
      keyRules: seq<Rule<KeyPolicy>>, urlPath: string, lower: string -> string)
    requires SortedByWeight(keyRules)
    ensures var path, rule := TrimLeft(urlPath), KeyRuleFor(keyRules, urlPath, lower);
            if exists k :: UnknownComesFirst(keyRules, k, path, lower)
            then rule == Untouched
            else if exists r :: r in keyRules && Applies(r, path, lower)
            then exists r :: r in keyRules && Applies(r, path, lower) && rule == KeyRuleOf(r.settings) &&
                   forall x | x in keyRules && Applies(x, path, lower) :: r.weight <= x.weight
            else rule == KeyRuleOf(LastAll(keyRules, |keyRules|, NO_KEY_RULE).settings)
  {
    if keyRules != [] {
      LightestApplicableRuleWins(keyRules, urlPath, lower, NO_KEY_RULE);
      UnknownTypeFailsExactlyWhenFirst(keyRules, urlPath, lower, NO_KEY_RULE);
    }
  }

  // ---------- What the texts of a rule mean ----------

  /** A path is cached exactly when a path rule is chosen for it that enables
      caching. */
  lemma CachedExactlyWhenEnabled(pathRules: seq<Rule<CachePolicy>>, urlPath: string)
    ensures IsCached(pathRules, urlPath) <==>
            exists r :: Choose(pathRules, urlPath, s => s, NO_PATH_RULE) == Chosen(r) && r.settings.enable
  {
    var c := Choose(pathRules, urlPath, s => s, NO_PATH_RULE);
    assert c.Chosen? ==> c == Chosen(c.rule);
  }

  /** Without a chosen rule, and under any text but the four below, a request is
      left alone. */
  lemma {:induction false} OtherTextsLeaveAlone(
      keyRules: seq<Rule<KeyPolicy>>, urlPath: string, lower: string -> string, p: string)
    requires IsBytes(p)
    requires var c := Choose(keyRules, urlPath, lower, NO_KEY_RULE);
             c.Chosen? ==>
               c.rule.settings.ignoreKeyRule !in {"ignore", "keep", "keep_specified", "ignore_specified"}
    ensures Rebuilt(keyRules, urlPath, lower, p) == p
  {
    UntouchedStays(p);
  }

  /** "ignore": nothing of the query remains, but for a bare question mark. */
  lemma {:induction false} IgnoreDropsQuery(
      keyRules: seq<Rule<KeyPolicy>>, urlPath: string, lower: string -> string, r: Rule<KeyPolicy>, p: string)
    requires IsBytes(p) && Choose(keyRules, urlPath, lower, NO_KEY_RULE) == Chosen(r)
    requires r.settings.ignoreKeyRule == "ignore"
    ensures Rebuilt(keyRules, urlPath, lower, p) == FilePart(p) + (if QueryPart(p) == Some("") then "?" else "")
  {
    EncodeEmpty();
  }

  /** The query of a request, as a multimap. */
  function QueryOf(p: string): Query {
    ParseQuery(RawOf(QueryPart(p)))
  }

  /** Rebuilding keeps the file and projects the query. */
  lemma {:induction false} RebuiltQuery(rule: KeyRule, p: string)
    requires IsBytes(p) && !rule.Untouched?
    ensures FilePart(Rebuild(rule, p)) == FilePart(p)
    ensures QueryOf(Rebuild(rule, p)) == Project(rule, QueryOf(p))
  {
    PartsAreBytes(p);
    var raw := RawOf(QueryPart(p));
    ParseIsProper(raw);
    ProjectIsProper(rule, ParseQuery(raw));
    AssembledParts(FilePart(p), QueryPart(p) == Some(""), RawAfter(rule, raw));
    ParseInvertsEncode(Project(rule, ParseQuery(raw)));
  }

  lemma ChosenRebuilds(
      keyRules: seq<Rule<KeyPolicy>>, urlPath: string, lower: string -> string, r: Rule<KeyPolicy>, p: string)
    requires IsBytes(p) && Choose(keyRules, urlPath, lower, NO_KEY_RULE) == Chosen(r)
    ensures Rebuilt(keyRules, urlPath, lower, p) == Rebuild(KeyRuleOf(r.settings), p)
  {
    hide Choose, Rebuild;
  }

  /** "keep": the file and the query stay, up to their encoding. */
  lemma {:induction false} KeepKeepsQuery(
      keyRules: seq<Rule<KeyPolicy>>, urlPath: string, lower: string -> string, r: Rule<KeyPolicy>, p: string)
    requires IsBytes(p) && Choose(keyRules, urlPath, lower, NO_KEY_RULE) == Chosen(r)
    requires r.settings.ignoreKeyRule == "keep"
    ensures var p' := Rebuilt(keyRules, urlPath, lower, p);
            FilePart(p') == FilePart(p) && QueryOf(p') == QueryOf(p)
  {
    hide Choose, Rebuilt, Rebuild, ParseQuery;
    ChosenRebuilds(keyRules, urlPath, lower, r, p);
    RebuiltQuery(Keep, p);
  }

  lemma {:induction false} CountIsMultiplicity(keys: seq<string>, k: string)
    ensures Count(keys, k) == multiset(keys)[k]
  {
    if keys != [] {
      CountIsMultiplicity(keys[..|keys| - 1], k);
      assert keys == keys[..|keys| - 1] + [keys[|keys| - 1]];
    }
  }

  /** "keep_specified": exactly the listed keys that are present remain, each with
      its first value alone, once per listing. */
  lemma {:induction false} KeepSpecifiedKeepsListed(
      keyRules: seq<Rule<KeyPolicy>>, urlPath: string, lower: string -> string, r: Rule<KeyPolicy>, p: string,
      k: string)
    requires IsBytes(p) && Choose(keyRules, urlPath, lower, NO_KEY_RULE) == Chosen(r)
    requires r.settings.ignoreKeyRule == "keep_specified"
    ensures var p' := Rebuilt(keyRules, urlPath, lower, p);
            var m, m' := QueryOf(p), QueryOf(p');
            && FilePart(p') == FilePart(p)
            && (k in m' <==> k in m && k in r.settings.keys)
            && (k in m' ==>
                  && |m[k]| > 0 && |m'[k]| == multiset(r.settings.keys)[k]
                  && forall i | 0 <= i < |m'[k]| :: m'[k][i] == m[k][0])
  {
    hide Choose, Rebuilt, Rebuild, ParseQuery;
    PartsAreBytes(p);
    ParseIsProper(RawOf(QueryPart(p)));
    ChosenRebuilds(keyRules, urlPath, lower, r, p);
    RebuiltQuery(KeepSpecified(r.settings.keys), p);
    KeepListedMeaning(QueryOf(p), r.settings.keys, k);
    CountIsMultiplicity(r.settings.keys, k);
  }

  /** "ignore_specified": exactly the keys that are not listed remain, with all
      their values. */
  lemma {:induction false} IgnoreSpecifiedDropsListed(
      keyRules: seq<Rule<KeyPolicy>>, urlPath: string, lower: string -> string, r: Rule<KeyPolicy>, p: string,
      k: string)
    requires IsBytes(p) && Choose(keyRules, urlPath, lower, NO_KEY_RULE) == Chosen(r)
    requires r.settings.ignoreKeyRule == "ignore_specified"
    ensures var p' := Rebuilt(keyRules, urlPath, lower, p);
            var m, m' := QueryOf(p), QueryOf(p');
            && FilePart(p') == FilePart(p)
            && (k in m' <==> k in m && k !in r.settings.keys)
            && (k in m' ==> m'[k] == m[k])
  {
    hide Choose, Rebuilt, Rebuild, ParseQuery;
    ChosenRebuilds(keyRules, urlPath, lower, r, p);
    RebuiltQuery(IgnoreSpecified(r.settings.keys), p);
  }

  /** A path to which no rule applies, and no "all" rule, is not cached, and no
      key rule changes its requests. */
  lemma {:induction false} NoRuleNoChange(
      pathRules: seq<Rule<CachePolicy>>, keyRules: seq<Rule<KeyPolicy>>, urlPath: string, lower: string -> string,
      p: string)
    requires IsBytes(p)
    requires forall r | r in pathRules :: !r.cacheType.All? && !Applies(r, TrimLeft(urlPath), s => s)
    requires forall r | r in keyRules :: !r.cacheType.All? && !Applies(r, TrimLeft(urlPath), lower)
    ensures !IsCached(pathRules, urlPath)
    ensures Rebuilt(keyRules, urlPath, lower, p) == p
  {
    var path := TrimLeft(urlPath);
    NothingChosen(pathRules, 0, path, s => s, NO_PATH_RULE);
    NothingChosen(keyRules, 0, path, lower, NO_KEY_RULE);
    UntouchedStays(p);
  }

  lemma {:induction false} NothingChosen<R>(
      rules: seq<Rule<R>>, i: nat, path: string, lower: string -> string, standby: Rule<R>)
    requires i <= |rules| && forall r | r in rules :: !r.cacheType.All? && !Applies(r, path, lower)
    ensures var c := ChooseFrom(rules, i, path, lower, standby); c.UnknownType? || c == Chosen(standby)
    decreases |rules| - i
  {
    if i < |rules| {
      assert rules[i] in rules;
      NothingChosen(rules, i + 1, path, lower, standby);
    }
  }
}
