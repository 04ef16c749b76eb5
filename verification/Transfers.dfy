/** Copying a source object into the cache: a multipart upload of 5 MiB parts,
    each downloaded into a buffer first. */
module Transfers {
  import opened GoInts
  import opened Options
  import opened ByteRanges

  const PART_SIZE := 0x50_0000

  /** The conversion int32(n). */
  function WrapInt32(n: nat): int {
    var m := n % 0x1_0000_0000;
    if m <= MAX_INT32 then m else m - 0x1_0000_0000
  }

  /** The S3 side of one multipart upload: the parts it accepted, the numbers it
      was told to complete with, and whether it was aborted. */
  class MultipartUpload<T> {
    var parts: seq<(int, seq<T>)>
    var aborted: bool
    var completedWith: Option<seq<int>>

    constructor ()
      ensures parts == [] && !aborted && completedWith == None
    {
      parts, aborted, completedWith := [], false, None;
    }

    method UploadPart(number: int, body: seq<T>, accepted: bool)
      modifies this`parts
      ensures parts == if accepted then old(parts) + [(number, body)] else old(parts)
    {
      if accepted {
        parts := parts + [(number, body)];
      }
    }

    method Abort()
      modifies this`aborted
      ensures aborted
    {
      aborted := true;
    }

    method Complete(numbers: seq<int>)
      modifies this`completedWith
      ensures completedWith == Some(numbers)
    {
      completedWith := Some(numbers);
    }
  }

  /** The parts uploaded from chunk k on, and whether some chunk failed to
      download or to upload. `up(k)` tells whether S3 accepts part k. */
  ghost function PartsFrom<T>(env: nat -> Attempt, up: nat -> bool, n: nat, source: seq<T>, chunks: seq<Chunk>, k: nat,
                        acc: seq<(int, seq<T>)>): (seq<(int, seq<T>)>, bool)
    requires k <= |chunks|
    requires Inside(chunks, |source|)
    decreases |chunks| - k
  {
    if k == |chunks| then (acc, true)
    else
      var d := Fetch(env, n, source, chunks[k].start, chunks[k].end, []);
      if d.err.Some? || !up(k) then (acc, false)
      else PartsFrom(env, up, d.attempts, source, chunks, k + 1, acc + [(WrapInt32(k + 1), d.written)])
  }

  /** The part loop, and then exactly one of abort and complete. */
  method Transfer<T>(env: nat -> Attempt, up: nat -> bool, source: seq<T>, upload: MultipartUpload<T>)
      returns (sent: bool, ghost chunks: seq<Chunk>)
    requires |source| + PART_SIZE <= MAX_INT64 && |source| + DOWNLOAD_CHUNK_SIZE < MAX_INT64
    requires upload.parts == [] && !upload.aborted && upload.completedWith == None
    modifies upload
    ensures Tiling(chunks, |source|, PART_SIZE)
    ensures Inside(chunks, |source|)
    ensures (upload.parts, sent) == PartsFrom(env, up, 0, source, chunks, 0, [])
    ensures upload.aborted == !sent
    ensures upload.completedWith == if sent then Some(Numbers(upload.parts)) else None
    ensures sent ==> Assembled(upload.parts) == source
    ensures AllClean(env) && (forall k: nat | k < |chunks| :: up(k)) ==> sent
  {
    var cs := CalculateChunks(|source|, PART_SIZE);
    chunks := cs;
    TilingInside(cs, |source|, PART_SIZE);
    var completeParts: seq<int> := [];
    var attempts := 0;
    var k := 0;
    sent := true;
    while k < |cs| && sent
      invariant k <= |cs|
      invariant completeParts == Numbers(upload.parts)
      invariant !upload.aborted && upload.completedWith == None
      invariant PartsFrom(env, up, 0, source, cs, 0, []) ==
                if sent then PartsFrom(env, up, attempts, source, cs, k, upload.parts) else (upload.parts, false)
      decreases |cs| - k, sent
    {
      var buffer := new Writer<T>();
      var err, next := DownloadChunk(env, attempts, source, cs[k].start, cs[k].end, buffer);
      if err.Some? {
        sent := false;
      } else {
        upload.UploadPart(WrapInt32(k + 1), buffer.data, up(k));
        if !up(k) {
          sent := false;
        } else {
          completeParts := completeParts + [WrapInt32(k + 1)];
          attempts, k := next, k + 1;
        }
      }
    }
    TransferIsByteExact(env, up, source, cs);
    if AllClean(env) && forall j: nat | j < |chunks| :: up(j) {
      CleanTransferIsSent(env, up, 0, source, cs, 0, []);
    }
    if !sent {
      upload.Abort();
    } else {
      upload.Complete(completeParts);
    }
  }

  function Numbers<T>(parts: seq<(int, seq<T>)>): (r: seq<int>)
    ensures |r| == |parts| && forall i | 0 <= i < |parts| :: r[i] == parts[i].0
  {
    seq(|parts|, i requires 0 <= i < |parts| => parts[i].0)
  }

  /** The object S3 assembles from the parts. */
  function Assembled<T>(parts: seq<(int, seq<T>)>): seq<T> {
    if parts == [] then [] else Assembled(parts[..|parts| - 1]) + parts[|parts| - 1].1
  }

  lemma PartLengths<T>(source: seq<T>, chunks: seq<Chunk>, parts: seq<(int, seq<T>)>)
    requires Tiling(chunks, |source|, PART_SIZE) && Inside(chunks, |source|) && PartsMatch(source, chunks, parts)
    ensures forall i | 0 <= i < |parts| && i < |chunks| - 1 :: |parts[i].1| == PART_SIZE
  {
    forall i | 0 <= i < |parts| && i < |chunks| - 1
      ensures |parts[i].1| == PART_SIZE
    {
      TilingStarts(chunks, |source|, PART_SIZE, i);
    }
  }

  /** Part i carries exactly the bytes of chunk i. */
  ghost predicate PartsMatch<T>(source: seq<T>, chunks: seq<Chunk>, parts: seq<(int, seq<T>)>)
    requires Inside(chunks, |source|)
  {
    && |parts| <= |chunks|
    && forall i | 0 <= i < |parts| :: parts[i] == (WrapInt32(i + 1), Wanted(source, chunks[i].start, chunks[i].end))
  }

  lemma {:induction false} PartsFromMatch<T>(env: nat -> Attempt, up: nat -> bool, n: nat, source: seq<T>,
      chunks: seq<Chunk>, k: nat, acc: seq<(int, seq<T>)>)
    requires k <= |chunks|
    requires Inside(chunks, |source|)
    requires PartsMatch(source, chunks, acc) && |acc| == k
    ensures var (parts, sent) := PartsFrom(env, up, n, source, chunks, k, acc);
            && PartsMatch(source, chunks, parts)
            && (sent <==> |parts| == |chunks|)
    decreases |chunks| - k
  {
    if k < |chunks| {
      var d := Fetch(env, n, source, chunks[k].start, chunks[k].end, []);
      DownloadWritesPrefix(env, n, source, chunks[k].start, chunks[k].end, []);
      if d.err == None && up(k) {
        assert d.written == Wanted(source, chunks[k].start, chunks[k].end);
        PartsFromMatch(env, up, d.attempts, source, chunks, k + 1, acc + [(WrapInt32(k + 1), d.written)]);
      }
    }
  }

  lemma {:induction false} AssembledIsSlices<T>(source: seq<T>, chunks: seq<Chunk>, parts: seq<(int, seq<T>)>)
    requires Inside(chunks, |source|) && PartsMatch(source, chunks, parts)
    ensures Assembled(parts) == Slices(source, chunks, |parts|)
  {
    if parts != [] {
      AssembledIsSlices(source, chunks, parts[..|parts| - 1]);
    }
  }

  /** The transfer is byte exact. Whatever fails and is retried, the parts carry
      the chunks' bytes in order; if every chunk goes through, they assemble to
      the source, all but the last of exactly 5 MiB; otherwise some chunk has no
      part. */
  lemma {:induction false} TransferIsByteExact<T>(env: nat -> Attempt, up: nat -> bool, source: seq<T>,
      chunks: seq<Chunk>)
    requires Tiling(chunks, |source|, PART_SIZE)
    requires Inside(chunks, |source|)
    ensures var (parts, sent) := PartsFrom(env, up, 0, source, chunks, 0, []);
            && (sent ==> Assembled(parts) == source && |parts| == |chunks|)
            && (!sent ==> |parts| < |chunks|)
            && Assembled(parts) <= source
            && forall i | 0 <= i < |parts| && i < |chunks| - 1 :: |parts[i].1| == 5 * 1024 * 1024
  {
    PartsFromMatch(env, up, 0, source, chunks, 0, []);
    var (parts, sent) := PartsFrom(env, up, 0, source, chunks, 0, []);
    AssembledIsSlices(source, chunks, parts);
    ChunksReassemble(source, chunks, PART_SIZE, |parts|);
    ChunksReassemble(source, chunks, PART_SIZE, |chunks|);
    PartLengths(source, chunks, parts);
  }

  lemma {:induction false} CleanTransferIsSent<T>(env: nat -> Attempt, up: nat -> bool, n: nat, source: seq<T>,
      chunks: seq<Chunk>, k: nat, acc: seq<(int, seq<T>)>)
    requires k <= |chunks| && Inside(chunks, |source|)
    requires AllClean(env) && forall j: nat | j < |chunks| :: up(j)
    ensures PartsFrom(env, up, n, source, chunks, k, acc).1
    decreases |chunks| - k
  {
    if k < |chunks| {
      var d := Fetch(env, n, source, chunks[k].start, chunks[k].end, []);
      CleanDownloadSucceeds(env, n, source, chunks[k].start, chunks[k].end, []);
      CleanTransferIsSent(env, up, d.attempts, source, chunks, k + 1, acc + [(WrapInt32(k + 1), d.written)]);
    }
  }

  /** The attempts of chunks k and later are those of their sub-ranges, one after
      the other, and S3 accepts each part. */
  predicate EveryChunkSucceeds(env: nat -> Attempt, up: nat -> bool, n: nat, chunks: seq<Chunk>, k: nat,
                               at: seq<seq<nat>>)
    requires k <= |chunks|
    decreases |at|
  {
    && |at| == |chunks| - k
    && (at != [] ==>
          && up(k) && |at[0]| == RangeCount(chunks[k].start, chunks[k].end) && AllSucceed(env, n, at[0])
          && EveryChunkSucceeds(env, up, if at[0] == [] then n else at[0][|at[0]| - 1] + 1, chunks, k + 1, at[1..]))
  }

  lemma {:induction false} SentIfEveryChunkSucceeds<T>(env: nat -> Attempt, up: nat -> bool, n: nat, source: seq<T>,
      chunks: seq<Chunk>, k: nat, acc: seq<(int, seq<T>)>, at: seq<seq<nat>>)
    requires k <= |chunks| && Inside(chunks, |source|) && EveryChunkSucceeds(env, up, n, chunks, k, at)
    ensures PartsFrom(env, up, n, source, chunks, k, acc).1
    decreases |chunks| - k
  {
    if k < |chunks| {
      var d := Fetch(env, n, source, chunks[k].start, chunks[k].end, []);
      SucceedsIfAllDo(env, n, source, chunks[k].start, chunks[k].end, [], at[0]);
      SentIfEveryChunkSucceeds(
        env, up, d.attempts, source, chunks, k + 1, acc + [(WrapInt32(k + 1), d.written)], at[1..]);
    }
  }

  lemma {:induction false} SentOnlyIfEveryChunkSucceeds<T>(env: nat -> Attempt, up: nat -> bool, n: nat,
      source: seq<T>, chunks: seq<Chunk>, k: nat, acc: seq<(int, seq<T>)>) returns (at: seq<seq<nat>>)
    requires k <= |chunks| && Inside(chunks, |source|) && PartsFrom(env, up, n, source, chunks, k, acc).1
    ensures EveryChunkSucceeds(env, up, n, chunks, k, at)
    decreases |chunks| - k
  {
    at := [];
    if k < |chunks| {
      var d := Fetch(env, n, source, chunks[k].start, chunks[k].end, []);
      var first := SucceedsOnlyIfAllDo(env, n, source, chunks[k].start, chunks[k].end, []);
      SucceedsIfAllDo(env, n, source, chunks[k].start, chunks[k].end, [], first);
      var rest := SentOnlyIfEveryChunkSucceeds(
        env, up, d.attempts, source, chunks, k + 1, acc + [(WrapInt32(k + 1), d.written)]);
      at := [first] + rest;
    }
  }

  predicate Succeeds(env: nat -> Attempt, up: nat -> bool, chunks: seq<Chunk>, at: seq<seq<nat>>) {
    EveryChunkSucceeds(env, up, 0, chunks, 0, at)
  }

  /** A transfer is completed exactly when every sub-range of every chunk succeeds
      within three attempts and S3 accepts every part; otherwise it is aborted. */
  lemma {:induction false} TransferSucceedsExactly<T>(env: nat -> Attempt, up: nat -> bool, source: seq<T>,
      chunks: seq<Chunk>)
    requires Inside(chunks, |source|)
    ensures PartsFrom(env, up, 0, source, chunks, 0, []).1 <==>
            exists at :: Succeeds(env, up, chunks, at)
  {
    if PartsFrom(env, up, 0, source, chunks, 0, []).1 {
      var at := SentOnlyIfEveryChunkSucceeds(env, up, 0, source, chunks, 0, []);
      assert Succeeds(env, up, chunks, at);
    } else {
      forall at: seq<seq<nat>>
        ensures !Succeeds(env, up, chunks, at)
      {
        if Succeeds(env, up, chunks, at) {
          SentIfEveryChunkSucceeds(env, up, 0, source, chunks, 0, [], at);
        }
      }
    }
  }

  /** The completed part numbers are 1, 2, ... exactly when there are no more
      parts than an int32 can count. */
  lemma PartNumbersAreConsecutive<T>(env: nat -> Attempt, up: nat -> bool, source: seq<T>, chunks: seq<Chunk>)
    requires Inside(chunks, |source|)
    requires PartsFrom(env, up, 0, source, chunks, 0, []).1
    ensures var numbers := Numbers(PartsFrom(env, up, 0, source, chunks, 0, []).0);
            (forall i | 0 <= i < |numbers| :: numbers[i] == i + 1) <==> |chunks| <= 2_147_483_647
  {
    PartsFromMatch(env, up, 0, source, chunks, 0, []);
    var parts := PartsFrom(env, up, 0, source, chunks, 0, []).0;
    assert forall i | 0 <= i < |parts| :: parts[i].0 == WrapInt32(i + 1);
    WrappedNumbers(Numbers(parts));
  }

  lemma WrappedNumbers(numbers: seq<int>)
    requires forall i | 0 <= i < |numbers| :: numbers[i] == WrapInt32(i + 1)
    ensures (forall i | 0 <= i < |numbers| :: numbers[i] == i + 1) <==> |numbers| <= MAX_INT32
  {
    if |numbers| > MAX_INT32 {
      assert numbers[MAX_INT32] == WrapInt32(MAX_INT32 + 1) == -MAX_INT32 - 1;
    }
  }
}
