/** Which requests share a cached object: the query is projected by the matched
    rule, encoded canonically, and hashed into the saved file name. The path
    part is opaque and free of '?'. */
module CacheIdentity {
  import opened Options
  import opened QueryCodec

  /** The rule's IgnoreKeyRule; any other text leaves the query alone. */
  datatype KeyRule = Ignore | Keep | KeepSpecified(keys: seq<string>) | IgnoreSpecified(keys: seq<string>) | Untouched

  // ---------- Projection ----------

  /** The first value of each listed key that is present, once per listing. */
  function KeepListed(m: Query, keys: seq<string>): Query {
    if keys == [] then map[]
    else
      var acc, k := KeepListed(m, keys[..|keys| - 1]), keys[|keys| - 1];
      if k in m && m[k] != [] then Add(acc, k, m[k][0]) else acc
  }

  function DropListed(m: Query, keys: seq<string>): Query {
    m - set k | k in keys
  }

  function Project(rule: KeyRule, m: Query): Query {
    match rule
    case Ignore => map[]
    case Keep => m
    case KeepSpecified(keys) => KeepListed(m, keys)
    case IgnoreSpecified(keys) => DropListed(m, keys)
    case Untouched => m
  }

  /** The loops of ReBuildPathByRule over the parsed query. */
  method ProjectQuery(rule: KeyRule, parsed: Query) returns (query: Query)
    requires Proper(parsed)
    ensures query == Project(rule, parsed)
  {
    match rule {
      case Ignore => query := map[];
      case Keep => query := parsed;
      case Untouched => query := parsed;
      case KeepSpecified(keys) =>
        query := map[];
        for i := 0 to |keys|
          invariant query == KeepListed(parsed, keys[..i])
        {
          assert keys[..i + 1][..i] == keys[..i];
          if keys[i] in parsed {
            query := Add(query, keys[i], parsed[keys[i]][0]);
          }
        }
        assert keys[..|keys|] == keys;
      case IgnoreSpecified(keys) =>
        query := CopyQuery(parsed);
        for i := 0 to |keys|
          invariant query == DropListed(parsed, keys[..i])
        {
          query := query - {keys[i]};
          assert keys[..i + 1] == keys[..i] + [keys[i]];
        }
        assert keys[..|keys|] == keys;
    }
  }

  /** Adds the values of one key. */
  method AddValues(m: Query, key: string, values: seq<string>) returns (query: Query)
    ensures query == if values == [] then m else m[key := ValuesOf(m, key) + values]
  {
    query := m;
    for i := 0 to |values|
      invariant query == if i == 0 then m else m[key := ValuesOf(m, key) + values[..i]]
    {
      assert values[..i + 1] == values[..i] + [values[i]];
      assert ValuesOf(m, key) + values[..i + 1] == ValuesOf(m, key) + values[..i] + [values[i]];
      assert ValuesOf(m, key) + values[..0] == ValuesOf(m, key);
      query := Add(query, key, values[i]);
    }
    assert values[..|values|] == values;
  }

  /** Adds every value of every key, in any order of the keys. */
  method CopyQuery(parsed: Query) returns (query: Query)
    requires Proper(parsed)
    ensures query == parsed
  {
    query := map[];
    var left := parsed.Keys;
    while left != {}
      invariant left <= parsed.Keys
      invariant query == Restrict(parsed, parsed.Keys - left)
      decreases |left|
    {
      var key :| key in left;
      query := AddValues(query, key, parsed[key]);
      RestrictOneMore(parsed, parsed.Keys - left, key);
      assert parsed.Keys - (left - {key}) == parsed.Keys - left + {key};
      left := left - {key};
    }
    assert parsed.Keys - {} == parsed.Keys;
  }

  lemma {:induction false} KeepListedIsProper(m: Query, keys: seq<string>)
    requires Proper(m)
    ensures Proper(KeepListed(m, keys))
  {
    if keys != [] {
      KeepListedIsProper(m, keys[..|keys| - 1]);
    }
  }

  lemma ProjectIsProper(rule: KeyRule, m: Query)
    requires Proper(m)
    ensures Proper(Project(rule, m))
  {
    if rule.KeepSpecified? {
      KeepListedIsProper(m, rule.keys);
    }
  }

  function Count(keys: seq<string>, k: string): nat {
    if keys == [] then 0 else Count(keys[..|keys| - 1], k) + (if keys[|keys| - 1] == k then 1 else 0)
  }

  function Repeat(v: string, n: nat): seq<string> {
    seq(n, _ => v)
  }

  /** Keeping listed keys keeps, for each of them that is present, its first
      value as often as the key is listed. */
  lemma {:induction false} KeepListedMeaning(m: Query, keys: seq<string>, k: string)
    requires Proper(m)
    ensures k in KeepListed(m, keys) <==> k in m && k in keys
    ensures k in m ==> ValuesOf(KeepListed(m, keys), k) == Repeat(m[k][0], Count(keys, k))
    ensures k in keys ==> Count(keys, k) > 0
  {
    if keys != [] {
      KeepListedMeaning(m, keys[..|keys| - 1], k);
      assert keys == keys[..|keys| - 1] + [keys[|keys| - 1]];
      if k in m {
        assert Repeat(m[k][0], Count(keys[..|keys| - 1], k)) + [m[k][0]] ==
               Repeat(m[k][0], Count(keys[..|keys| - 1], k) + 1);
      }
    }
  }

  /** The query multimaps look the same through the rule. */
  ghost predicate Agree(rule: KeyRule, m: Query, m': Query)
    requires Proper(m) && Proper(m')
  {
    match rule
    case Ignore => true
    case Keep => m == m'
    case KeepSpecified(keys) =>
      forall k | k in keys :: (k in m <==> k in m') && (k in m && k in m' ==> m[k][0] == m'[k][0])
    case IgnoreSpecified(keys) => forall k | k !in keys :: ValuesOf(m, k) == ValuesOf(m', k)
    case Untouched => m == m'
  }

  lemma KeepListedAgrees(m: Query, m': Query, keys: seq<string>)
    requires Proper(m) && Proper(m')
    ensures KeepListed(m, keys) == KeepListed(m', keys) <==> Agree(KeepSpecified(keys), m, m')
  {
    var p, p' := KeepListed(m, keys), KeepListed(m', keys);
    if p == p' {
      forall k | k in keys
        ensures (k in m <==> k in m') && (k in m && k in m' ==> m[k][0] == m'[k][0])
      {
        KeepListedMeaning(m, keys, k);
        KeepListedMeaning(m', keys, k);
        if k in m && k in m' {
          assert Repeat(m[k][0], Count(keys, k))[0] == m[k][0];
          assert Repeat(m'[k][0], Count(keys, k))[0] == m'[k][0];
        }
      }
    }
    if Agree(KeepSpecified(keys), m, m') {
      forall k
        ensures k in p <==> k in p'
        ensures k in p ==> p[k] == p'[k]
      {
        KeepListedMeaning(m, keys, k);
        KeepListedMeaning(m', keys, k);
      }
    }
  }

  lemma DropListedAgrees(m: Query, m': Query, keys: seq<string>)
    requires Proper(m) && Proper(m')
    ensures DropListed(m, keys) == DropListed(m', keys) <==> Agree(IgnoreSpecified(keys), m, m')
  {
    var p, p' := DropListed(m, keys), DropListed(m', keys);
    assert forall k :: ValuesOf(p, k) == if k in keys then [] else ValuesOf(m, k);
    assert forall k :: ValuesOf(p', k) == if k in keys then [] else ValuesOf(m', k);
    if Agree(IgnoreSpecified(keys), m, m') {
      assert forall k :: k in p <==> ValuesOf(p, k) != [];
      assert forall k :: k in p' <==> ValuesOf(p', k) != [];
      forall k
        ensures k in p <==> k in p'
        ensures k in p ==> p[k] == p'[k]
      {
        assert ValuesOf(p, k) == ValuesOf(p', k);
      }
    }
  }

  /** Projections are equal exactly when the multimaps agree through the rule. */
  lemma ProjectionsAgree(rule: KeyRule, m: Query, m': Query)
    requires Proper(m) && Proper(m')
    ensures Project(rule, m) == Project(rule, m') <==> Agree(rule, m, m')
  {
    match rule
    case KeepSpecified(keys) => KeepListedAgrees(m, m', keys);
    case IgnoreSpecified(keys) => DropListedAgrees(m, m', keys);
    case _ =>
  }

  // ---------- Rebuilding the path ----------

  /** The path and the text after the first '?', if there is one. */
  function FilePart(path: string): string {
    Before(path, '?')
  }

  function QueryPart(path: string): Option<string> {
    if '?' in path then Some(After(path, '?')) else None
  }

  /** The raw query after the rule. */
  ghost function RawAfter(rule: KeyRule, raw: string): string
    requires IsBytes(raw)
  {
    ParseIsProper(raw);
    ProjectIsProper(rule, ParseQuery(raw));
    if rule.Untouched? then raw else Encode(Project(rule, ParseQuery(raw)))
  }

  /** URL.String: the question mark is printed for a non-empty query, and for a
      bare one that was there from the start. */
  function Assemble(file: string, forceQuery: bool, raw: string): string {
    if raw != "" || forceQuery then file + "?" + raw else file
  }

  function RawOf(q: Option<string>): string {
    if q.Some? then q.value else ""
  }

  ghost function Rebuild(rule: KeyRule, path: string): string
    requires IsBytes(path)
  {
    var q := QueryPart(path);
    Assemble(FilePart(path), q == Some(""), RawAfter(rule, RawOf(q)))
  }

  lemma AssembledParts(file: string, forceQuery: bool, raw: string)
    requires '?' !in file
    ensures var path := Assemble(file, forceQuery, raw);
            FilePart(path) == file && QueryPart(path) == if raw != "" || forceQuery then Some(raw) else None
  {
    CutAtFirst(file, '?', raw);
    assert file + "?" + raw == file + ['?'] + raw;
    assert (file + ['?'] + raw)[|file|] == '?';
  }

  lemma {:induction false} EscapedAreBytes(s: string)
    requires IsBytes(s)
    ensures IsBytes(Escape(s))
  {
    if s != "" {
      EscapedAreBytes(s[1..]);
    }
  }

  lemma {:induction false} EncodedPairsAreBytes(ps: seq<Pair>)
    requires BytePairs(ps)
    ensures IsBytes(EncodePairs(ps))
  {
    if ps != [] {
      EscapedAreBytes(ps[0].0);
      EscapedAreBytes(ps[0].1);
      if |ps| > 1 {
        EncodedPairsAreBytes(ps[1..]);
      }
    }
  }

  lemma EncodedAreBytes(m: Query)
    requires Proper(m)
    ensures IsBytes(Encode(m))
  {
    OrderedPairsAreBytes(m, SortedKeys(m.Keys));
    EncodedPairsAreBytes(PairsInOrder(m, SortedKeys(m.Keys)));
  }

  lemma {:induction false} KeepListedTwice(m: Query, keys: seq<string>, all: seq<string>)
    requires Proper(m) && forall k | k in keys :: k in all
    ensures KeepListed(KeepListed(m, all), keys) == KeepListed(m, keys)
  {
    if keys != [] {
      var k := keys[|keys| - 1];
      KeepListedTwice(m, keys[..|keys| - 1], all);
      KeepListedMeaning(m, all, k);
      if k in m {
        assert Repeat(m[k][0], Count(all, k))[0] == m[k][0];
      }
    }
  }

  lemma ProjectTwice(rule: KeyRule, m: Query)
    requires Proper(m)
    ensures Project(rule, Project(rule, m)) == Project(rule, m)
  {
    if rule.KeepSpecified? {
      KeepListedTwice(m, rule.keys, rule.keys);
    }
  }

  lemma RawAfterTwice(rule: KeyRule, raw: string)
    requires IsBytes(raw)
    ensures IsBytes(RawAfter(rule, raw))
    ensures RawAfter(rule, RawAfter(rule, raw)) == RawAfter(rule, raw)
  {
    if !rule.Untouched? {
      var m := ParseQuery(raw);
      ParseIsProper(raw);
      ProjectIsProper(rule, m);
      EncodedAreBytes(Project(rule, m));
      ParseInvertsEncode(Project(rule, m));
      ProjectTwice(rule, m);
    }
  }

  lemma PartsAreBytes(path: string)
    requires IsBytes(path)
    ensures IsBytes(FilePart(path)) && IsBytes(RawOf(QueryPart(path))) && '?' !in FilePart(path)
  {
  }

  lemma AssembleAgain(file: string, forceQuery: bool, raw: string)
    requires '?' !in file && IsBytes(file) && IsBytes(raw)
    ensures var path := Assemble(file, forceQuery, raw);
            && IsBytes(path)
            && RawOf(QueryPart(path)) == raw
            && Assemble(FilePart(path), QueryPart(path) == Some(""), raw) == path
  {
    AssembledParts(file, forceQuery, raw);
  }

  /** Rebuilding a rebuilt path changes nothing. */
  lemma {:induction false} RebuildIsIdempotent(rule: KeyRule, path: string)
    requires IsBytes(path)
    ensures IsBytes(Rebuild(rule, path))
    ensures Rebuild(rule, Rebuild(rule, path)) == Rebuild(rule, path)
  {
    PartsAreBytes(path);
    RawAfterTwice(rule, RawOf(QueryPart(path)));
    AssembleAgain(FilePart(path), QueryPart(path) == Some(""), RawAfter(rule, RawOf(QueryPart(path))));
  }
}
