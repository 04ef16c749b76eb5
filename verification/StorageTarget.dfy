/** The S3 target of a site and its identity. The source hashes the identity
    with SHA-256; here the digest is represented by the string that is hashed,
    which amounts to assuming that the digest has no collisions. */
module StorageTarget {
  import opened NulKeys

  datatype StorageS3 = StorageS3(accessKey: string, secretKey: string, bucket: string, endpoint: string, region: string)

  /** The hashed fields, in hashing order. */
  function TargetFields(c: StorageS3): seq<string> {
    [c.endpoint, c.accessKey, c.secretKey, c.bucket, c.region]
  }

  /** Each field is preceded by a NUL byte. */
  function Fingerprint(c: StorageS3): string {
    [NUL] + Join(TargetFields(c))
  }

  /** Two configurations have one fingerprint exactly when they are the same,
      as long as no field but the region can contain NUL. */
  lemma FingerprintIdentifies(c: StorageS3, d: StorageS3)
    requires Separable(TargetFields(c)) && Separable(TargetFields(d))
    ensures Fingerprint(c) == Fingerprint(d) <==> c == d
    ensures Fingerprint(c) != ""
  {
    JoinInjective(TargetFields(c), TargetFields(d));
    assert Fingerprint(c)[1..] == Join(TargetFields(c)) && Fingerprint(d)[1..] == Join(TargetFields(d));
    var f, g := TargetFields(c), TargetFields(d);
    if f == g {
      assert f[0] == g[0] && f[1] == g[1] && f[2] == g[2] && f[3] == g[3] && f[4] == g[4];
    }
  }

  /** The hashed bytes: each field after a zero byte, the endpoint first. */
  lemma FingerprintFormat(c: StorageS3)
    ensures Fingerprint(c) ==
            "\0" + c.endpoint + "\0" + c.accessKey + "\0" + c.secretKey + "\0" + c.bucket + "\0" + c.region
  {
    var f := TargetFields(c);
    KeyFormat(c.secretKey, c.bucket, c.region);
    assert f[1..][1..] == [c.secretKey, c.bucket, c.region];
    assert Join(f[1..]) == c.accessKey + "\0" + Join(f[1..][1..]);
    assert Join(f) == c.endpoint + "\0" + Join(f[1..]);
    var tail := c.secretKey + "\0" + c.bucket + "\0" + c.region;
    assert "\0" + (c.endpoint + "\0" + (c.accessKey + "\0" + tail)) ==
           "\0" + c.endpoint + "\0" + c.accessKey + "\0" + c.secretKey + "\0" + c.bucket + "\0" + c.region;
  }
}
