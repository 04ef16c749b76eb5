/** Composite string keys. The expiration store, the task grouping, the upload
    reservation map and the storage fingerprint all build one string by placing
    a NUL byte between fields. This module proves when that is unambiguous. */
module NulKeys {

  const NUL: char := '\0'

  predicate NulFree(s: string) {
    NUL !in s
  }

  /** The fields separated by single NUL characters. */
  function Join(parts: seq<string>): string {
    if |parts| == 0 then ""
    else if |parts| == 1 then parts[0]
    else parts[0] + [NUL] + Join(parts[1..])
  }

  /** How the keys look: one zero byte between the fields. */
  lemma KeyFormat(a: string, b: string, c: string)
    ensures Join([a, b]) == a + "\0" + b
    ensures Join([a, b, c]) == a + "\0" + b + "\0" + c
  {
    assert [a, b][1..] == [b] && [a, b, c][1..] == [b, c] && [b, c][1..] == [c];
    assert Join([b, c]) == b + "\0" + c;
    assert Join([a, b, c]) == a + "\0" + Join([b, c]);
    assert a + "\0" + (b + "\0" + c) == a + "\0" + b + "\0" + c;
  }

  /** Every field but the last is free of NUL. */
  predicate Separable(parts: seq<string>) {
    forall i | 0 <= i < |parts| - 1 :: NulFree(parts[i])
  }

  /** A NUL-free head is determined by the first NUL of the joined string. */
  lemma HeadUnique(a: string, x: string, b: string, y: string)
    requires NulFree(a) && NulFree(b)
    requires a + [NUL] + x == b + [NUL] + y
    ensures a == b && x == y
  {
    var s := a + [NUL] + x;
    assert s[|a|] == NUL && s == b + [NUL] + y;
    assert s[|b|] == NUL;
    assert forall k | 0 <= k < |a| :: s[k] == a[k] && a[k] != NUL;
    assert forall k | 0 <= k < |b| :: s[k] == b[k] && b[k] != NUL;
    assert |a| == |b|;
    assert a == s[..|a|] && b == s[..|b|];
    assert x == s[|a| + 1..] && y == s[|b| + 1..];
  }

  /** Joined keys with the same number of fields are equal only when all fields
      are, provided every field but the last is free of NUL. */
  lemma {:induction false} JoinInjective(a: seq<string>, b: seq<string>)
    requires |a| == |b|
    requires Separable(a) && Separable(b)
    ensures Join(a) == Join(b) <==> a == b
  {
    if |a| > 1 && Join(a) == Join(b) {
      HeadUnique(a[0], Join(a[1..]), b[0], Join(b[1..]));
      assert forall i | 0 <= i < |a[1..]| - 1 :: a[1..][i] == a[i + 1] && b[1..][i] == b[i + 1];
      JoinInjective(a[1..], b[1..]);
      assert a == [a[0]] + a[1..] && b == [b[0]] + b[1..];
    }
  }

  /** Without that proviso the key is ambiguous: for any three fields, a NUL can
      move from one field into the next. */
  lemma JoinAmbiguous(a: string, b: string, c: string)
    ensures Join([a + [NUL] + b, c]) == Join([a, b + [NUL] + c])
    ensures [a + [NUL] + b, c] != [a, b + [NUL] + c]
  {
    var p, q := [a + [NUL] + b, c], [a, b + [NUL] + c];
    assert p[1..] == [c] && q[1..] == [b + [NUL] + c];
    assert a + [NUL] + b + [NUL] + c == a + [NUL] + (b + [NUL] + c);
    assert |p[0]| != |q[0]|;
  }
}
