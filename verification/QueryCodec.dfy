/** URL query strings: percent-encoding of query components, parsing into a
    multimap, and the canonical encoding sorted by key. Strings stand for byte
    strings, so their characters are below 256. */
module QueryCodec {
  import opened Options

  predicate IsBytes(s: string) {
    forall i | 0 <= i < |s| :: s[i] as int < 256
  }

  // ---------- Escaping ----------

  predicate Unreserved(c: char) {
    'a' <= c <= 'z' || 'A' <= c <= 'Z' || '0' <= c <= '9' || c == '-' || c == '_' || c == '.' || c == '~'
  }

  function HexDigit(n: int): char
    requires 0 <= n < 16
  {
    if n < 10 then '0' + n as char else 'A' + (n - 10) as char
  }

  /** Either case is accepted. */
  function HexValue(c: char): Option<int> {
    if '0' <= c <= '9' then Some(c as int - '0' as int)
    else if 'A' <= c <= 'F' then Some(c as int - 'A' as int + 10)
    else if 'a' <= c <= 'f' then Some(c as int - 'a' as int + 10)
    else None
  }

  function EscapeChar(c: char): string
    requires c as int < 256
  {
    if Unreserved(c) then [c]
    else if c == ' ' then "+"
    else ['%', HexDigit(c as int / 16), HexDigit(c as int % 16)]
  }

  function Escape(s: string): string
    requires IsBytes(s)
  {
    if s == "" then "" else EscapeChar(s[0]) + Escape(s[1..])
  }

  function Cons(c: char, rest: Option<string>): Option<string> {
    if rest.Some? then Some([c] + rest.value) else None
  }

  /** Fails on a percent sign without two hexadecimal digits after it. */
  function Unescape(s: string): Option<string> {
    if s == "" then Some("")
    else if s[0] == '%' then
      if |s| >= 3 && HexValue(s[1]).Some? && HexValue(s[2]).Some?
      then Cons((16 * HexValue(s[1]).value + HexValue(s[2]).value) as char, Unescape(s[3..]))
      else None
    else Cons(if s[0] == '+' then ' ' else s[0], Unescape(s[1..]))
  }

  lemma UnescapeOne(c: char, rest: string)
    requires c as int < 256
    ensures Unescape(EscapeChar(c) + rest) == Cons(c, Unescape(rest))
  {
    var s := EscapeChar(c) + rest;
    if |EscapeChar(c)| == 1 {
      assert s[1..] == rest;
    } else {
      assert s[3..] == rest;
      assert HexValue(s[1]) == Some(c as int / 16) && HexValue(s[2]) == Some(c as int % 16);
    }
  }

  lemma {:induction false} UnescapeInvertsEscape(s: string)
    requires IsBytes(s)
    ensures Unescape(Escape(s)) == Some(s)
  {
    if s != "" {
      UnescapeOne(s[0], Escape(s[1..]));
      UnescapeInvertsEscape(s[1..]);
      assert s == [s[0]] + s[1..];
    }
  }

  /** Escaped text contains no separator. */
  lemma {:induction false} EscapeIsSafe(s: string)
    requires IsBytes(s)
    ensures forall c | c in Escape(s) :: c != '&' && c != '=' && c != ';' && c != '?'
  {
    if s != "" {
      EscapeIsSafe(s[1..]);
    }
  }

  lemma {:induction false} UnescapeGivesBytes(s: string)
    requires IsBytes(s) && Unescape(s).Some?
    ensures IsBytes(Unescape(s).value)
  {
    if s != "" {
      if s[0] == '%' {
        UnescapeGivesBytes(s[3..]);
      } else {
        UnescapeGivesBytes(s[1..]);
      }
    }
  }

  // ---------- Parsing ----------

  /** The position of the first c, or the length when there is none. */
  function IndexOf(s: string, c: char): (i: nat)
    ensures i <= |s| && c !in s[..i] && (i < |s| ==> s[i] == c)
  {
    if s == "" || s[0] == c then 0
    else
      var i := 1 + IndexOf(s[1..], c);
      assert s[..i] == [s[0]] + s[1..][..i - 1];
      i
  }

  function Before(s: string, c: char): string {
    s[..IndexOf(s, c)]
  }

  function After(s: string, c: char): string {
    var i := IndexOf(s, c);
    if i < |s| then s[i + 1..] else ""
  }

  lemma CutAtFirst(a: string, c: char, b: string)
    requires c !in a
    ensures Before(a + [c] + b, c) == a && After(a + [c] + b, c) == b
    ensures Before(a, c) == a && After(a, c) == ""
  {
    var s := a + [c] + b;
    var i := IndexOf(s, c);
    assert s[|a|] == c;
    assert forall k | 0 <= k < |a| :: s[k] == a[k];
    assert i <= |a| by {
      assert forall k | 0 <= k < i :: s[..i][k] == s[k] && s[k] != c;
    }
    assert i == |a|;
    assert IndexOf(a, c) == |a|;
  }

  type Pair = (string, string)

  /** One segment between ampersands. A segment that is empty, contains a
      semicolon or does not unescape is dropped. */
  function ParseSegment(seg: string): seq<Pair> {
    if ';' in seg || seg == "" then []
    else
      var key, value := Unescape(Before(seg, '=')), Unescape(After(seg, '='));
      if key.Some? && value.Some? then [(key.value, value.value)] else []
  }

  function ParsePairs(q: string): seq<Pair>
    decreases |q|
  {
    if q == "" then [] else ParseSegment(Before(q, '&')) + ParsePairs(After(q, '&'))
  }

  /** url.Values: the values of each key in order of appearance. */
  type Query = map<string, seq<string>>

  function ValuesOf(m: Query, k: string): seq<string> {
    if k in m then m[k] else []
  }

  function Add(m: Query, k: string, v: string): Query {
    m[k := ValuesOf(m, k) + [v]]
  }

  function FromPairs(ps: seq<Pair>): Query {
    if ps == [] then map[]
    else
      var p := ps[|ps| - 1];
      Add(FromPairs(ps[..|ps| - 1]), p.0, p.1)
  }

  function ParseQuery(q: string): Query {
    FromPairs(ParsePairs(q))
  }

  /** What parsing produces: byte strings, and no key without a value. */
  ghost predicate Proper(m: Query) {
    forall k | k in m :: IsBytes(k) && m[k] != [] && forall v | v in m[k] :: IsBytes(v)
  }

  predicate BytePairs(ps: seq<Pair>) {
    forall p | p in ps :: IsBytes(p.0) && IsBytes(p.1)
  }

  lemma {:induction false} ParsedPairsAreBytes(q: string)
    requires IsBytes(q)
    ensures BytePairs(ParsePairs(q))
    decreases |q|
  {
    if q != "" {
      var seg := Before(q, '&');
      if Unescape(Before(seg, '=')).Some? {
        UnescapeGivesBytes(Before(seg, '='));
      }
      if Unescape(After(seg, '=')).Some? {
        UnescapeGivesBytes(After(seg, '='));
      }
      ParsedPairsAreBytes(After(q, '&'));
    }
  }

  lemma {:induction false} FromPairsIsProper(ps: seq<Pair>)
    requires BytePairs(ps)
    ensures Proper(FromPairs(ps))
  {
    if ps != [] {
      FromPairsIsProper(ps[..|ps| - 1]);
      assert ps[|ps| - 1] in ps;
    }
  }

  lemma ParseIsProper(q: string)
    requires IsBytes(q)
    ensures Proper(ParseQuery(q))
  {
    ParsedPairsAreBytes(q);
    FromPairsIsProper(ParsePairs(q));
  }

  // ---------- Canonical encoding ----------

  /** Byte-wise lexicographic order. */
  predicate Less(a: string, b: string) {
    b != "" && (a == "" || a[0] < b[0] || (a[0] == b[0] && Less(a[1..], b[1..])))
  }

  lemma {:induction false} LessIsTotal(a: string, b: string)
    ensures a == b || Less(a, b) || Less(b, a)
  {
    if a != "" && b != "" && a[0] == b[0] {
      LessIsTotal(a[1..], b[1..]);
      assert a == [a[0]] + a[1..] && b == [b[0]] + b[1..];
    }
  }

  lemma {:induction false} LessIsTransitive(a: string, b: string, c: string)
    requires Less(a, b) && Less(b, c)
    ensures Less(a, c)
  {
    if a != "" && a[0] == b[0] && b[0] == c[0] {
      LessIsTransitive(a[1..], b[1..], c[1..]);
    }
  }

  ghost predicate IsFirst(k: string, keys: set<string>) {
    k in keys && forall j | j in keys && j != k :: Less(k, j)
  }

  lemma {:induction false} FirstExists(keys: set<string>)
    requires keys != {}
    ensures exists k :: IsFirst(k, keys)
    decreases |keys|
  {
    var x :| x in keys;
    var rest := keys - {x};
    if rest == {} {
      assert forall j | j in keys && j != x :: j in rest;
      assert IsFirst(x, keys);
    } else {
      FirstExists(rest);
      var k :| IsFirst(k, rest);
      LessIsTotal(x, k);
      if Less(x, k) {
        forall j | j in keys && j != x
          ensures Less(x, j)
        {
          if j != k {
            LessIsTransitive(x, k, j);
          }
        }
        assert IsFirst(x, keys);
      } else {
        assert IsFirst(k, keys);
      }
    }
  }

  ghost function SortedKeys(keys: set<string>): (r: seq<string>)
    ensures forall k :: k in r <==> k in keys
    ensures forall i, j | 0 <= i < j < |r| :: Less(r[i], r[j]) && r[i] != r[j]
    decreases |keys|
  {
    if keys == {} then []
    else
      FirstExists(keys);
      var k :| IsFirst(k, keys);
      [k] + SortedKeys(keys - {k})
  }

  function KeyPairs(k: string, values: seq<string>): seq<Pair> {
    seq(|values|, i requires 0 <= i < |values| => (k, values[i]))
  }

  function PairsInOrder(m: Query, keys: seq<string>): seq<Pair> {
    if keys == [] then []
    else
      var k := keys[|keys| - 1];
      PairsInOrder(m, keys[..|keys| - 1]) + KeyPairs(k, ValuesOf(m, k))
  }

  function EncodePair(p: Pair): string
    requires IsBytes(p.0) && IsBytes(p.1)
  {
    Escape(p.0) + "=" + Escape(p.1)
  }

  function EncodePairs(ps: seq<Pair>): string
    requires BytePairs(ps)
  {
    if ps == [] then ""
    else if |ps| == 1 then EncodePair(ps[0])
    else EncodePair(ps[0]) + "&" + EncodePairs(ps[1..])
  }

  lemma {:induction false} OrderedPairsAreBytes(m: Query, keys: seq<string>)
    requires Proper(m) && forall k | k in keys :: k in m
    ensures BytePairs(PairsInOrder(m, keys))
  {
    if keys != [] {
      OrderedPairsAreBytes(m, keys[..|keys| - 1]);
    }
  }

  /** url.Values.Encode: keys in sorted order, the values of a key in their own. */
  ghost function Encode(m: Query): string
    requires Proper(m)
  {
    var keys := SortedKeys(m.Keys);
    OrderedPairsAreBytes(m, keys);
    EncodePairs(PairsInOrder(m, keys))
  }

  // ---------- Round trip ----------

  lemma EncodedPairIsSafe(p: Pair)
    requires IsBytes(p.0) && IsBytes(p.1)
    ensures '&' !in EncodePair(p) && ';' !in EncodePair(p) && EncodePair(p) != ""
  {
    EscapeIsSafe(p.0);
    EscapeIsSafe(p.1);
  }

  lemma EncodedPairSplits(p: Pair)
    requires IsBytes(p.0) && IsBytes(p.1)
    ensures Before(EncodePair(p), '=') == Escape(p.0) && After(EncodePair(p), '=') == Escape(p.1)
  {
    EscapeIsSafe(p.0);
    CutAtFirst(Escape(p.0), '=', Escape(p.1));
  }

  lemma SegmentRoundTrip(p: Pair)
    requires IsBytes(p.0) && IsBytes(p.1)
    ensures ParseSegment(EncodePair(p)) == [p]
    ensures '&' !in EncodePair(p) && EncodePair(p) != ""
  {
    hide EncodePair, Before, After, Escape, Unescape;
    EncodedPairIsSafe(p);
    EncodedPairSplits(p);
    UnescapeInvertsEscape(p.0);
    UnescapeInvertsEscape(p.1);
  }

  lemma {:induction false} PairsRoundTrip(ps: seq<Pair>)
    requires BytePairs(ps)
    ensures ParsePairs(EncodePairs(ps)) == ps
  {
    if ps != [] {
      SegmentRoundTrip(ps[0]);
      if |ps| == 1 {
        CutAtFirst(EncodePair(ps[0]), '&', "");
      } else {
        CutAtFirst(EncodePair(ps[0]), '&', EncodePairs(ps[1..]));
        PairsRoundTrip(ps[1..]);
      }
    }
  }

  lemma {:induction false} FromKeyPairs(ps: seq<Pair>, k: string, values: seq<string>)
    requires values != []
    ensures FromPairs(ps + KeyPairs(k, values)) == FromPairs(ps)[k := ValuesOf(FromPairs(ps), k) + values]
  {
    var n := |values| - 1;
    var all := ps + KeyPairs(k, values);
    assert all[..|all| - 1] == ps + KeyPairs(k, values[..n]) && all[|all| - 1] == (k, values[n]);
    var had := ValuesOf(FromPairs(ps), k);
    assert had + values == had + values[..n] + [values[n]];
    if n == 0 {
      assert ps + KeyPairs(k, values[..n]) == ps;
      assert had + values[..n] == had;
    } else {
      FromKeyPairs(ps, k, values[..n]);
    }
  }

  function Restrict(m: Query, keys: set<string>): Query
    requires keys <= m.Keys
  {
    map k | k in keys :: m[k]
  }

  function Elements(keys: seq<string>): set<string> {
    set k | k in keys
  }

  lemma LastIsNew(keys: seq<string>)
    requires keys != [] && forall i, j | 0 <= i < j < |keys| :: keys[i] != keys[j]
    ensures var n := |keys| - 1;
            keys[n] !in Elements(keys[..n]) && Elements(keys) == Elements(keys[..n]) + {keys[n]}
  {
    var n := |keys| - 1;
    assert keys == keys[..n] + [keys[n]];
  }

  lemma RestrictOneMore(m: Query, keys: set<string>, k: string)
    requires keys <= m.Keys && k in m && k !in keys
    ensures Restrict(m, keys + {k}) == Restrict(m, keys)[k := ValuesOf(Restrict(m, keys), k) + m[k]]
  {
    assert [] + m[k] == m[k];
  }

  lemma {:induction false} OrderedPairsRebuild(m: Query, keys: seq<string>)
    requires forall k | k in m :: m[k] != []
    requires Elements(keys) <= m.Keys
    requires forall i, j | 0 <= i < j < |keys| :: keys[i] != keys[j]
    ensures FromPairs(PairsInOrder(m, keys)) == Restrict(m, Elements(keys))
  {
    if keys != [] {
      var n := |keys| - 1;
      LastIsNew(keys);
      assert keys[n] in Elements(keys);
      OrderedPairsRebuild(m, keys[..n]);
      FromKeyPairs(PairsInOrder(m, keys[..n]), keys[n], m[keys[n]]);
      RestrictOneMore(m, Elements(keys[..n]), keys[n]);
    }
  }

  lemma EncodedInAnyOrder(m: Query, keys: seq<string>)
    requires Proper(m) && Elements(keys) == m.Keys
    requires forall i, j | 0 <= i < j < |keys| :: keys[i] != keys[j]
    requires BytePairs(PairsInOrder(m, keys))
    ensures ParseQuery(EncodePairs(PairsInOrder(m, keys))) == m
  {
    PairsRoundTrip(PairsInOrder(m, keys));
    OrderedPairsRebuild(m, keys);
    assert Restrict(m, m.Keys) == m;
  }

  /** Parsing inverts the canonical encoding, so the encoding is canonical: one
      string for each multimap. */
  lemma {:induction false} ParseInvertsEncode(m: Query)
    requires Proper(m)
    ensures ParseQuery(Encode(m)) == m
  {
    var keys := SortedKeys(m.Keys);
    assert Elements(keys) == m.Keys;
    OrderedPairsAreBytes(m, keys);
    EncodedInAnyOrder(m, keys);
  }

  lemma {:induction false} EncodeIsInjective(m: Query, m': Query)
    requires Proper(m) && Proper(m')
    ensures Encode(m) == Encode(m') <==> m == m'
  {
    ParseInvertsEncode(m);
    ParseInvertsEncode(m');
  }

  lemma EncodeEmpty()
    ensures Encode(map[]) == ""
  {
    var none: Query := map[];
    assert none.Keys == {} && SortedKeys(none.Keys) == [];
  }

  // ---------- The format, piece by piece ----------

  lemma {:induction false} EscapedPieces(a: string, b: string)
    requires IsBytes(a) && IsBytes(b)
    ensures Escape(a + b) == Escape(a) + Escape(b)
  {
    if a == "" {
      assert a + b == b;
    } else {
      EscapedPieces(a[1..], b);
      assert (a + b)[1..] == a[1..] + b;
    }
  }

  const UPPER := "0123456789ABCDEF"
  const LOWER := "0123456789abcdef"

  lemma HexTables(n: int)
    requires 0 <= n < 16
    ensures HexDigit(n) == UPPER[n] && HexValue(UPPER[n]) == Some(n) && HexValue(LOWER[n]) == Some(n)
  {
    assert n == 0 || n == 1 || n == 2 || n == 3 || n == 4 || n == 5 || n == 6 || n == 7 ||
           n == 8 || n == 9 || n == 10 || n == 11 || n == 12 || n == 13 || n == 14 || n == 15;
  }

  /** Letters, digits and four signs stay, a space becomes a plus sign, and any
      other byte a percent sign and its two upper-case digits. */
  lemma EscapeOfOneByte(c: char)
    requires c as int < 256
    ensures Escape([c]) ==
            if 'a' <= c <= 'z' || 'A' <= c <= 'Z' || '0' <= c <= '9' || c in "-_.~" then [c]
            else if c == ' ' then "+"
            else "%" + [UPPER[c as int / 16], UPPER[c as int % 16]]
  {
    assert [c][1..] == "";
    HexTables(c as int / 16);
    HexTables(c as int % 16);
    assert c in "-_.~" <==> c == '-' || c == '_' || c == '.' || c == '~' by {
      assert "-_.~"[0] == '-' && "-_.~"[1] == '_' && "-_.~"[2] == '.' && "-_.~"[3] == '~';
    }
  }

  /** Reading goes from left to right: digits of either case after a percent sign,
      a plus sign for a space, and any other character for itself. */
  lemma UnescapeOfOnePiece(c: char, hi: nat, lo: nat, rest: string)
    requires c != '%' && hi < 16 && lo < 16
    ensures Unescape([c] + rest) == Cons(if c == '+' then ' ' else c, Unescape(rest))
    ensures forall h, l | h in {UPPER[hi], LOWER[hi]} && l in {UPPER[lo], LOWER[lo]} ::
              Unescape(['%', h, l] + rest) == Cons((16 * hi + lo) as char, Unescape(rest))
  {
    assert ([c] + rest)[1..] == rest;
    HexTables(hi);
    HexTables(lo);
    forall h, l | h in {UPPER[hi], LOWER[hi]} && l in {UPPER[lo], LOWER[lo]}
      ensures Unescape(['%', h, l] + rest) == Cons((16 * hi + lo) as char, Unescape(rest))
    {
      assert (['%', h, l] + rest)[3..] == rest;
    }
  }

  /** A percent sign without two digits after it is an error. */
  lemma UnescapeFails(rest: string)
    requires |rest| < 2 || (rest[0] !in UPPER && rest[0] !in LOWER) || (rest[1] !in UPPER && rest[1] !in LOWER)
    ensures Unescape("%" + rest) == None
  {
    var s := "%" + rest;
    if |rest| >= 2 {
      if HexValue(rest[0]).Some? {
        NotADigit(rest[0]);
      }
      if HexValue(rest[1]).Some? {
        NotADigit(rest[1]);
      }
      assert s[1] == rest[0] && s[2] == rest[1];
    }
  }

  lemma NotADigit(c: char)
    requires HexValue(c).Some?
    ensures c in UPPER || c in LOWER
  {
    var n := HexValue(c).value;
    HexTables(n);
    assert c == UPPER[n] || c == LOWER[n];
  }

  /** Segments are read from left to right. */
  lemma FirstSegment(a: string, b: string)
    requires '&' !in a
    ensures ParsePairs(a + "&" + b) == ParseSegment(a) + ParsePairs(b)
    ensures ParsePairs(a) == ParseSegment(a)
  {
    CutAtFirst(a, '&', b);
    assert a + ['&'] + b == a + "&" + b;
  }

  /** A segment is a key and a value around its first equals sign, or a key with
      an empty value; it is dropped when it is empty, holds a semicolon or has an
      error in either piece. */
  lemma SegmentMeans(k: string, v: string)
    requires '=' !in k
    ensures ParseSegment(k + "=" + v) ==
            if ';' !in k && ';' !in v && Unescape(k).Some? && Unescape(v).Some?
            then [(Unescape(k).value, Unescape(v).value)] else []
    ensures ParseSegment(k) ==
            if k != "" && ';' !in k && Unescape(k).Some? then [(Unescape(k).value, "")] else []
  {
    CutAtFirst(k, '=', v);
    assert k + ['='] + v == k + "=" + v;
  }

  /** A key has the values of its pairs, in order. */
  lemma OneMorePair(ps: seq<Pair>, k: string, v: string, j: string)
    ensures ValuesOf(FromPairs(ps + [(k, v)]), j) ==
            ValuesOf(FromPairs(ps), j) + (if j == k then [v] else [])
  {
    assert (ps + [(k, v)])[..|ps|] == ps;
  }

  /** Keys are in byte order: a prefix comes first, and else the smaller byte at
      the first difference. */
  lemma LessIsByByte(x: string, c: char, d: char, y: string, z: string)
    requires c < d
    ensures Less(x, x + [c] + y) && Less(x + [c] + y, x + [d] + z)
    ensures !Less(x, x) && !Less(x + [c] + y, x) && !Less(x + [d] + z, x + [c] + y)
  {
    if x != "" {
      LessIsByByte(x[1..], c, d, y, z);
      assert (x + [c] + y)[1..] == x[1..] + [c] + y && (x + [d] + z)[1..] == x[1..] + [d] + z;
    }
  }

  lemma ListedIsOneOfTwo(keys: seq<string>, i: nat, j: string, k: string)
    requires i < |keys| && forall x :: x in keys <==> x == j || x == k
    ensures keys[i] == j || keys[i] == k
  {
    assert keys[i] in keys;
  }

  lemma {:induction false} LessIsStrict(a: string, b: string)
    requires Less(a, b)
    ensures a != b && !Less(b, a)
  {
    if a != "" && a[0] == b[0] {
      LessIsStrict(a[1..], b[1..]);
    }
  }

  lemma TwoSortedKeys(keys: seq<string>, j: string, k: string)
    requires forall i :: i in keys <==> i == j || i == k
    requires forall a, b | 0 <= a < b < |keys| :: Less(keys[a], keys[b]) && keys[a] != keys[b]
    requires Less(j, k)
    ensures keys == [j, k]
  {
    hide Less;
    LessIsStrict(j, k);
    assert j in keys && k in keys;
    var a :| 0 <= a < |keys| && keys[a] == j;
    var b :| 0 <= b < |keys| && keys[b] == k;
    if |keys| > 2 {
      ListedIsOneOfTwo(keys, 0, j, k);
      ListedIsOneOfTwo(keys, 1, j, k);
      ListedIsOneOfTwo(keys, 2, j, k);
    }
    assert a < b;
  }

  /** The canonical encoding has the smaller key first, whatever order the query
      had. */
  lemma {:induction false} SmallerKeyFirst(j: string, k: string, v: string, w: string)
    requires IsBytes(j) && IsBytes(k) && IsBytes(v) && IsBytes(w)
    requires Less(j, k)
    ensures var m: Query := map[k := [w], j := [v]];
            Proper(m) && Encode(m) == Escape(j) + "=" + Escape(v) + "&" + Escape(k) + "=" + Escape(w)
  {
    hide Escape, Less, IsBytes;
    LessIsStrict(j, k);
    var m: Query := map[k := [w], j := [v]];
    TwoSortedKeys(SortedKeys(m.Keys), j, k);
    TwoPairs(m, j, k, v, w);
    EncodeTwo((j, v), (k, w));
  }

  lemma TwoPairs(m: Query, j: string, k: string, v: string, w: string)
    requires j in m && m[j] == [v] && k in m && m[k] == [w]
    ensures PairsInOrder(m, [j, k]) == [(j, v), (k, w)]
  {
    assert [j, k][..1] == [j] && [j][..0] == [];
    assert PairsInOrder(m, [j]) == [(j, v)];
  }

  lemma EncodeTwo(p: Pair, q: Pair)
    requires IsBytes(p.0) && IsBytes(p.1) && IsBytes(q.0) && IsBytes(q.1)
    ensures EncodePairs([p, q]) == Escape(p.0) + "=" + Escape(p.1) + "&" + Escape(q.0) + "=" + Escape(q.1)
  {
    hide Escape;
    assert [p, q][1..] == [q];
    assert EncodePairs([q]) == EncodePair(q);
    assert EncodePairs([p, q]) == EncodePair(p) + "&" + EncodePair(q);
    assert EncodePair(p) + "&" + (Escape(q.0) + "=" + Escape(q.1)) ==
           EncodePair(p) + "&" + Escape(q.0) + "=" + Escape(q.1);
  }
}
