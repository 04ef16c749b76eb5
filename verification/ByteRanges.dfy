/** Cutting an object into parts, and downloading a byte range in sub-ranges
    with retries. */
module ByteRanges {
  import opened GoInts
  import opened Options

  const DOWNLOAD_CHUNK_SIZE := 0x20_0000
  const DOWNLOAD_MAX_RETRY := 3

  function Min(a: int, b: int): int {
    if a <= b then a else b
  }

  // ---------- Parts of an object ----------

  /** Both ends are inclusive. */
  datatype Chunk = Chunk(start: int, end: int, index: int)

  /** The chunks follow each other without gap or overlap, numbered from 0, from
      the first byte to the last; each is `size` long but for the last. */
  ghost predicate Tiling(chunks: seq<Chunk>, total: int, size: int) {
    && (chunks == [] <==> total <= 0)
    && (chunks != [] ==> chunks[0].start == 0 && chunks[|chunks| - 1].end == total - 1)
    && (forall k | 0 <= k < |chunks| ::
          && chunks[k].index == k
          && 0 <= chunks[k].start <= chunks[k].end
          && chunks[k].end == Min(chunks[k].start + size, total) - 1)
    && (forall k | 0 <= k < |chunks| - 1 :: chunks[k + 1].start == chunks[k].end + 1)
  }

  /** A tiling under way: the chunks so far reach byte i, or the end. */
  ghost predicate TiledTo(chunks: seq<Chunk>, i: int, total: int, size: int) {
    && (chunks == [] <==> i == 0)
    && (chunks != [] ==> chunks[0].start == 0 && chunks[|chunks| - 1].end == Min(i, total) - 1)
    && (forall k | 0 <= k < |chunks| ::
          && chunks[k].index == k
          && 0 <= chunks[k].start <= chunks[k].end
          && chunks[k].end == Min(chunks[k].start + size, total) - 1)
    && (forall k | 0 <= k < |chunks| - 1 :: chunks[k + 1].start == chunks[k].end + 1)
  }

  lemma NextTile(chunks: seq<Chunk>, i: int, total: int, size: int, next: Chunk)
    requires TiledTo(chunks, i, total, size) && 0 <= i < total && 0 < size
    requires next == Chunk(i, Min(i + size, total) - 1, |chunks|)
    ensures TiledTo(chunks + [next], i + size, total, size)
  {
  }

  /** The sums stay within 64 bits when totalSize + chunkSize does. */
  method CalculateChunks(totalSize: int, chunkSize: int) returns (chunks: seq<Chunk>)
    requires 0 < chunkSize && totalSize + chunkSize <= MAX_INT64
    ensures Tiling(chunks, totalSize, chunkSize)
  {
    chunks := [];
    var i := 0;
    while i < totalSize
      invariant 0 <= i && TiledTo(chunks, i, totalSize, chunkSize)
      decreases totalSize - i
    {
      assert i + chunkSize <= MAX_INT64;
      var end := i + chunkSize - 1;
      if end >= totalSize {
        end := totalSize - 1;
      }
      var chunk := Chunk(i, end, |chunks|);
      NextTile(chunks, i, totalSize, chunkSize, chunk);
      chunks := chunks + [chunk];
      i := i + chunkSize;
    }
  }

  /** Chunk k starts at k * size, and all but the last are exactly `size` long. */
  lemma {:induction false} TilingStarts(chunks: seq<Chunk>, total: int, size: int, k: nat)
    requires Tiling(chunks, total, size) && 0 < size && k < |chunks|
    ensures chunks[k].start == k * size
    ensures k < |chunks| - 1 ==> chunks[k].end == (k + 1) * size - 1
  {
    if k > 0 {
      TilingStarts(chunks, total, size, k - 1);
    }
    assert (k + 1) * size == k * size + size;
    if k < |chunks| - 1 {
      assert chunks[k + 1].start <= chunks[k + 1].end < total;
    }
  }

  /** There are ceil(total / size) chunks: one fewer would fall short of the last
      byte, and none is superfluous. */
  lemma TilingCount(chunks: seq<Chunk>, total: int, size: int)
    requires Tiling(chunks, total, size) && 0 < size && 0 < total
    ensures (|chunks| - 1) * size < total <= |chunks| * size
  {
    var last := |chunks| - 1;
    TilingStarts(chunks, total, size, last);
    assert (last + 1) * size == last * size + size;
  }

  /** Every chunk lies within an object of `total` bytes. */
  ghost predicate Inside(chunks: seq<Chunk>, total: int) {
    forall k | 0 <= k < |chunks| :: 0 <= chunks[k].start <= chunks[k].end < total
  }

  /** The bytes of the first n chunks, put together. */
  ghost function Slices<T>(source: seq<T>, chunks: seq<Chunk>, n: nat): seq<T>
    requires Inside(chunks, |source|) && n <= |chunks|
  {
    if n == 0 then [] else Slices(source, chunks, n - 1) + source[chunks[n - 1].start..chunks[n - 1].end + 1]
  }

  /** How far the first n chunks reach. */
  function Reach(chunks: seq<Chunk>, n: nat): int
    requires n <= |chunks|
  {
    if n == 0 then 0 else chunks[n - 1].end + 1
  }

  lemma TilingInside(chunks: seq<Chunk>, total: int, size: int)
    requires Tiling(chunks, total, size)
    ensures Inside(chunks, total)
  {
  }

  /** Put together again, the first chunks are the first bytes of the object, and
      all of them are the object. */
  lemma {:induction false} ChunksReassemble<T>(source: seq<T>, chunks: seq<Chunk>, size: int, n: nat)
    requires Tiling(chunks, |source|, size) && Inside(chunks, |source|) && n <= |chunks|
    ensures Slices(source, chunks, n) == source[..Reach(chunks, n)]
    ensures Reach(chunks, |chunks|) == |source|
  {
    if n > 0 {
      ChunksReassemble(source, chunks, size, n - 1);
      assert chunks[n - 1].start == Reach(chunks, n - 1);
      assert source[..Reach(chunks, n)] == source[..Reach(chunks, n - 1)] +
             source[Reach(chunks, n - 1)..Reach(chunks, n)];
    }
  }

  // ---------- Downloading a range ----------

  /** What one attempt at a sub-range meets: a cancelled request, a failed open,
      or an opened reader. The reader yields the bytes of the sub-range; its copy
      may stop after `copied` bytes, and its close may fail. */
  datatype Attempt = Cancelled | OpenFails | Opens(copied: nat, copyOk: bool, closeOk: bool)

  datatype DownloadError = Interrupted | CopyFailed | CloseFailed | ChunkFailed

  /** Bytes written, the error, and the number of attempts made so far. */
  datatype Download<T> = Download(written: seq<T>, err: Option<DownloadError>, attempts: nat)

  /** The retry loop of one sub-range. `env(n)` is what attempt n meets. */
  function FetchRange<T>(env: nat -> Attempt, n: nat, tries: nat, range: seq<T>): Download<T>
    decreases DOWNLOAD_MAX_RETRY - tries
  {
    if tries >= DOWNLOAD_MAX_RETRY then Download([], Some(ChunkFailed), n)
    else
      match env(n)
      case Cancelled => Download([], Some(Interrupted), n + 1)
      case OpenFails => FetchRange(env, n + 1, tries + 1, range)
      case Opens(copied, copyOk, closeOk) =>
        if !copyOk then Download(range[..Min(copied, |range|)], Some(CopyFailed), n + 1)
        else Download(range, if closeOk then None else Some(CloseFailed), n + 1)
  }

  /** The end of the sub-range that begins at `start`: it is one byte longer than
      DOWNLOAD_CHUNK_SIZE, since both ends are included. */
  function RangeEnd(start: int, end: int): int {
    Min(start + DOWNLOAD_CHUNK_SIZE, end)
  }

  /** A download into a writer that already holds `acc`. */
  function Fetch<T>(env: nat -> Attempt, n: nat, source: seq<T>, start: int, end: int, acc: seq<T>): Download<T>
    requires 0 <= start && end < |source|
    decreases end + 1 - start
  {
    if start > end then Download(acc, None, n)
    else
      var chunkEnd := RangeEnd(start, end);
      var first := FetchRange(env, n, 0, source[start..chunkEnd + 1]);
      if first.err.Some? then Download(acc + first.written, first.err, first.attempts)
      else Fetch(env, first.attempts, source, chunkEnd + 1, end, acc + first.written)
  }

  lemma FetchUnfolds<T>(env: nat -> Attempt, n: nat, source: seq<T>, start: int, end: int, acc: seq<T>)
    requires 0 <= start <= end < |source|
    ensures var first := FetchRange(env, n, 0, source[start..RangeEnd(start, end) + 1]);
            Fetch(env, n, source, start, end, acc) ==
            if first.err.Some? then Download(acc + first.written, first.err, first.attempts)
            else Fetch(env, first.attempts, source, RangeEnd(start, end) + 1, end, acc + first.written)
  {
  }

  lemma FetchesNothing<T>(env: nat -> Attempt, n: nat, source: seq<T>, start: int, end: int, acc: seq<T>)
    requires 0 <= start && end < start && end < |source|
    ensures Fetch(env, n, source, start, end, acc) == Download(acc, None, n)
  {
  }

  /** The io.Writer a download appends to. */
  class Writer<T> {
    var data: seq<T>

    constructor ()
      ensures data == []
    {
      data := [];
    }

    method Write(bytes: seq<T>)
      modifies this
      ensures data == old(data) + bytes
    {
      data := data + bytes;
    }
  }

  /** The retry loop. */
  method DownloadRange<T>(env: nat -> Attempt, n: nat, range: seq<T>, w: Writer<T>)
      returns (err: Option<DownloadError>, attempts: nat)
    modifies w
    ensures var d := FetchRange(env, n, 0, range);
            w.data == old(w.data) + d.written && err == d.err && attempts == d.attempts
  {
    attempts := n;
    var tries := 0;
    while tries < DOWNLOAD_MAX_RETRY
      invariant tries <= DOWNLOAD_MAX_RETRY
      invariant w.data == old(w.data)
      invariant FetchRange(env, n, 0, range) == FetchRange(env, attempts, tries, range)
      decreases DOWNLOAD_MAX_RETRY - tries
    {
      var attempt := env(attempts);
      attempts := attempts + 1;
      match attempt {
        case Cancelled =>
          return Some(Interrupted), attempts;
        case OpenFails =>
          tries := tries + 1;
        case Opens(copied, copyOk, closeOk) =>
          if !copyOk {
            w.Write(range[..Min(copied, |range|)]);
            return Some(CopyFailed), attempts;
          }
          w.Write(range);
          return if closeOk then None else Some(CloseFailed), attempts;
      }
    }
    return Some(ChunkFailed), attempts;
  }

  /** DownloadChunk: sub-range after sub-range, from start to end inclusive. */
  method DownloadChunk<T>(env: nat -> Attempt, n: nat, source: seq<T>, start: int, end: int, w: Writer<T>)
      returns (err: Option<DownloadError>, attempts: nat)
    requires 0 <= start && end < |source| && end + DOWNLOAD_CHUNK_SIZE < MAX_INT64
    modifies w
    ensures Download(w.data, err, attempts) == Fetch(env, n, source, start, end, old(w.data))
    ensures AppendsPrefix(Download(w.data, err, attempts), old(w.data), Wanted(source, start, end))
  {
    var chunkStart := start;
    attempts := n;
    while chunkStart <= end
      invariant 0 <= chunkStart
      invariant Fetch(env, n, source, start, end, old(w.data)) == Fetch(env, attempts, source, chunkStart, end, w.data)
      decreases end + 1 - chunkStart
    {
      var chunkEnd := chunkStart + DOWNLOAD_CHUNK_SIZE;
      if chunkEnd > end {
        chunkEnd := end;
      }
      var range := source[chunkStart..chunkEnd + 1];
      ghost var first := FetchRange(env, attempts, 0, range);
      FetchUnfolds(env, attempts, source, chunkStart, end, w.data);
      err, attempts := DownloadRange(env, attempts, range, w);
      assert err == first.err && attempts == first.attempts;
      if err.Some? {
        DownloadWritesPrefix(env, n, source, start, end, old(w.data));
        return;
      }
      chunkStart := chunkEnd + 1;
    }
    DownloadWritesPrefix(env, n, source, start, end, old(w.data));
    return None, attempts;
  }

  /** One sub-range: at most three attempts; what is written is a prefix of it,
      all of it on success, and nothing when it was never opened. */
  lemma {:induction false} FetchRangeIsExact<T>(env: nat -> Attempt, n: nat, tries: nat, range: seq<T>)
    requires tries <= DOWNLOAD_MAX_RETRY
    ensures var d := FetchRange(env, n, tries, range);
            && n <= d.attempts <= n + (DOWNLOAD_MAX_RETRY - tries)
            && d.written <= range
            && (d.err == None || d.err == Some(CloseFailed) ==> d.written == range)
            && (d.err == Some(Interrupted) || d.err == Some(ChunkFailed) ==> d.written == [])
            && (d.err == Some(ChunkFailed) ==>
                  d.attempts == n + (DOWNLOAD_MAX_RETRY - tries) &&
                  forall i | n <= i < d.attempts :: env(i) == OpenFails)
            && (d.err == Some(Interrupted) ==> d.attempts > n && env(d.attempts - 1) == Cancelled)
            && (d.err == None ==> d.attempts > n && env(d.attempts - 1).Opens?)
    decreases DOWNLOAD_MAX_RETRY - tries
  {
    if tries < DOWNLOAD_MAX_RETRY && env(n) == OpenFails {
      FetchRangeIsExact(env, n + 1, tries + 1, range);
    }
  }

  /** How many sub-ranges a range is cut into. */
  function RangeCount(start: int, end: int): nat
    decreases end + 1 - start
  {
    if start > end then 0 else 1 + RangeCount(RangeEnd(start, end) + 1, end)
  }

  /** The bytes asked for. */
  function Wanted<T>(source: seq<T>, start: int, end: int): seq<T>
    requires 0 <= start && end < |source|
  {
    if start <= end then source[start..end + 1] else []
  }

  /** The download appended a prefix of `wanted` to `acc`, all of it on success. */
  ghost predicate AppendsPrefix<T>(d: Download<T>, acc: seq<T>, wanted: seq<T>) {
    && acc <= d.written && d.written <= acc + wanted
    && (d.err == None ==> d.written == acc + wanted)
  }

  lemma WantedSplits<T>(source: seq<T>, start: int, mid: int, end: int)
    requires 0 <= start <= mid <= end < |source|
    ensures Wanted(source, start, end) == source[start..mid + 1] + Wanted(source, mid + 1, end)
  {
  }

  lemma PartialRange<T>(d: Download<T>, acc: seq<T>, written: seq<T>, range: seq<T>, rest: seq<T>)
    requires d.written == acc + written && d.err.Some? && written <= range
    ensures AppendsPrefix(d, acc, range + rest)
  {
    assert acc + (range + rest) == acc + range + rest;
  }

  lemma WholeRange<T>(d: Download<T>, acc: seq<T>, range: seq<T>, rest: seq<T>)
    requires AppendsPrefix(d, acc + range, rest)
    ensures AppendsPrefix(d, acc, range + rest)
  {
    assert acc + (range + rest) == acc + range + rest;
    assert acc <= acc + range;
  }

  /** If the rest of a download appends a prefix, so does the whole of it. */
  lemma DownloadStep<T>(env: nat -> Attempt, n: nat, source: seq<T>, start: int, end: int, acc: seq<T>)
    requires 0 <= start <= end < |source|
    requires var mid := RangeEnd(start, end);
             var first := FetchRange(env, n, 0, source[start..mid + 1]);
             first.err == None ==>
               AppendsPrefix(Fetch(env, first.attempts, source, mid + 1, end, acc + first.written),
                             acc + first.written, Wanted(source, mid + 1, end))
    ensures AppendsPrefix(Fetch(env, n, source, start, end, acc), acc, Wanted(source, start, end))
  {
    var mid := RangeEnd(start, end);
    var range, rest := source[start..mid + 1], Wanted(source, mid + 1, end);
    var first := FetchRange(env, n, 0, range);
    var d := Fetch(env, n, source, start, end, acc);
    FetchRangeIsExact(env, n, 0, range);
    FetchUnfolds(env, n, source, start, end, acc);
    WantedSplits(source, start, mid, end);
    if first.err == None {
      WholeRange(d, acc, range, rest);
    } else {
      PartialRange(d, acc, first.written, range, rest);
    }
  }

  /** No byte is skipped or written twice, whatever fails and however often it is
      retried: what is appended is a prefix of the range, and all of it on
      success. */
  lemma {:induction false} DownloadWritesPrefix<T>(env: nat -> Attempt, n: nat, source: seq<T>, start: int,
      end: int, acc: seq<T>)
    requires 0 <= start && end < |source|
    ensures AppendsPrefix(Fetch(env, n, source, start, end, acc), acc, Wanted(source, start, end))
    decreases end + 1 - start
  {
    if start <= end {
      var mid := RangeEnd(start, end);
      var first := FetchRange(env, n, 0, source[start..mid + 1]);
      if first.err == None {
        DownloadWritesPrefix(env, first.attempts, source, mid + 1, end, acc + first.written);
      }
      DownloadStep(env, n, source, start, end, acc);
    }
  }

  /** Each sub-range is tried at most three times. */
  lemma {:induction false} AttemptsAreBounded<T>(env: nat -> Attempt, n: nat, source: seq<T>, start: int, end: int,
      acc: seq<T>)
    requires 0 <= start && end < |source|
    ensures Fetch(env, n, source, start, end, acc).attempts <= n + DOWNLOAD_MAX_RETRY * RangeCount(start, end)
    decreases end + 1 - start
  {
    if start <= end {
      var mid := RangeEnd(start, end);
      var first := FetchRange(env, n, 0, source[start..mid + 1]);
      FetchRangeIsExact(env, n, 0, source[start..mid + 1]);
      if first.err == None {
        AttemptsAreBounded(env, first.attempts, source, mid + 1, end, acc + first.written);
      }
    }
  }

  /** A reported failure is what the last attempts met: a cancelled request, or
      three failed opens in a row. */
  lemma {:induction false} FailureIsReal<T>(env: nat -> Attempt, n: nat, source: seq<T>, start: int, end: int,
      acc: seq<T>)
    requires 0 <= start && end < |source|
    ensures var d := Fetch(env, n, source, start, end, acc);
            && (d.err == Some(Interrupted) ==> d.attempts > n && env(d.attempts - 1) == Cancelled)
            && (d.err == Some(ChunkFailed) ==>
                  d.attempts >= n + DOWNLOAD_MAX_RETRY &&
                  forall i | d.attempts - DOWNLOAD_MAX_RETRY <= i < d.attempts :: env(i) == OpenFails)
    decreases end + 1 - start
  {
    hide Fetch, FetchRange;
    if start > end {
      FetchesNothing(env, n, source, start, end, acc);
    } else {
      var chunkEnd := RangeEnd(start, end);
      FetchRangeIsExact(env, n, 0, source[start..chunkEnd + 1]);
      FetchUnfolds(env, n, source, start, end, acc);
      var first := FetchRange(env, n, 0, source[start..chunkEnd + 1]);
      if first.err == None {
        FailureIsReal(env, first.attempts, source, chunkEnd + 1, end, acc + first.written);
      }
    }
  }

  /** A download that gives up on opening, or is interrupted, stops after `whole`
      complete sub-ranges, fewer than there are. */
  lemma {:induction false} FailureStopsBetweenRanges<T>(env: nat -> Attempt, n: nat, source: seq<T>, start: int,
      end: int, acc: seq<T>)
      returns (whole: nat)
    requires 0 <= start && end < |source|
    ensures var d := Fetch(env, n, source, start, end, acc);
            d.err == Some(Interrupted) || d.err == Some(ChunkFailed) ==>
              |d.written| == |acc| + whole * 2_097_153 && whole < RangeCount(start, end)
    decreases end + 1 - start
  {
    whole := 0;
    if start <= end {
      var mid := RangeEnd(start, end);
      var first := FetchRange(env, n, 0, source[start..mid + 1]);
      FetchRangeIsExact(env, n, 0, source[start..mid + 1]);
      FetchUnfolds(env, n, source, start, end, acc);
      if first.err == None && mid < end {
        var more := FailureStopsBetweenRanges(env, first.attempts, source, mid + 1, end, acc + first.written);
        whole := more + 1;
      }
    }
  }

  // ---------- When a download succeeds ----------

  /** Attempt i is the first of the three from n that is not a failed open. */
  predicate Decides(env: nat -> Attempt, n: nat, i: nat) {
    n <= i < n + 3 && !env(i).OpenFails? && forall j | n <= j < i :: env(j).OpenFails?
  }

  lemma {:induction false} SkipFailedOpens<T>(env: nat -> Attempt, n: nat, tries: nat, i: nat, range: seq<T>)
    requires n <= i && i - n < DOWNLOAD_MAX_RETRY - tries && forall j | n <= j < i :: env(j).OpenFails?
    ensures FetchRange(env, n, tries, range) == FetchRange(env, i, tries + (i - n), range)
    decreases i - n
  {
    if n < i {
      SkipFailedOpens(env, n + 1, tries + 1, i, range);
    }
  }

  /** What comes of one sub-range is decided by the first of three attempts that
      opens or is cancelled; without one, the sub-range fails. */
  lemma {:induction false} FirstOpenDecides<T>(env: nat -> Attempt, n: nat, range: seq<T>)
    ensures var d := FetchRange(env, n, 0, range);
            && (forall i: nat | Decides(env, n, i) ::
                  && d.attempts == i + 1
                  && (env(i).Cancelled? ==> d.err == Some(Interrupted) && d.written == [])
                  && (env(i).Opens? && !env(i).copyOk ==>
                        d.err == Some(CopyFailed) &&
                        d.written == if env(i).copied <= |range| then range[..env(i).copied] else range)
                  && (env(i).Opens? && env(i).copyOk ==> d.written == range)
                  && (env(i).Opens? && env(i).copyOk && !env(i).closeOk ==> d.err == Some(CloseFailed))
                  && (env(i).Opens? && env(i).copyOk && env(i).closeOk ==> d.err == None))
            && ((forall i | n <= i < n + 3 :: env(i).OpenFails?) ==>
                  d.err == Some(ChunkFailed) && d.written == [] && d.attempts == n + 3)
  {
    forall i: nat | Decides(env, n, i)
      ensures FetchRange(env, n, 0, range) == FetchRange(env, i, i - n, range)
    {
      SkipFailedOpens(env, n, 0, i, range);
    }
    if forall i | n <= i < n + 3 :: env(i).OpenFails? {
      SkipFailedOpens(env, n, 0, n + 2, range);
      assert FetchRange(env, n + 2, 2, range) == FetchRange(env, n + 3, 3, range);
    }
  }

  lemma {:induction false} SomethingDecides(env: nat -> Attempt, n: nat) returns (i: nat)
    requires exists j: nat :: n <= j < n + 3 && !env(j).OpenFails?
    ensures Decides(env, n, i)
  {
    if !env(n).OpenFails? {
      i := n;
    } else if !env(n + 1).OpenFails? {
      i := n + 1;
    } else {
      i := n + 2;
    }
  }

  /** Attempt i, one of three from n, opens, copies and closes, and all before it
      fail to open. */
  predicate SucceedsAt(env: nat -> Attempt, n: nat, i: nat) {
    && n <= i < n + 3 && env(i).Opens? && env(i).copyOk && env(i).closeOk
    && forall j | n <= j < i :: env(j).OpenFails?
  }

  /** One sub-range succeeds exactly when one of its three attempts does. */
  lemma {:induction false} FetchRangeSucceedsExactly<T>(env: nat -> Attempt, n: nat, range: seq<T>)
    ensures FetchRange(env, n, 0, range).err == None <==> exists i: nat :: SucceedsAt(env, n, i)
    ensures forall i: nat | SucceedsAt(env, n, i) :: FetchRange(env, n, 0, range) == Download(range, None, i + 1)
  {
    FirstOpenDecides(env, n, range);
    forall i: nat | SucceedsAt(env, n, i)
      ensures FetchRange(env, n, 0, range) == Download(range, None, i + 1)
    {
      assert Decides(env, n, i);
    }
    if FetchRange(env, n, 0, range).err == None {
      var i := SomethingDecides(env, n);
      assert SucceedsAt(env, n, i);
    }
  }

  /** A range has one sub-range for each 2 MiB + 1 begun. */
  lemma {:induction false} RangeCountIsCeiling(start: int, end: int)
    requires start <= end
    ensures (RangeCount(start, end) - 1) * 2_097_153 < end - start + 1 <= RangeCount(start, end) * 2_097_153
    decreases end - start
  {
    var next := RangeEnd(start, end) + 1;
    if next <= end {
      RangeCountIsCeiling(next, end);
    }
  }

  /** `at[k]` is the successful attempt of sub-range k, each within three of the
      one before it. */
  predicate AllSucceed(env: nat -> Attempt, n: nat, at: seq<nat>)
    decreases |at|
  {
    at == [] || (SucceedsAt(env, n, at[0]) && AllSucceed(env, at[0] + 1, at[1..]))
  }

  /** If every sub-range succeeds, so does the download. */
  lemma {:induction false} SucceedsIfAllDo<T>(env: nat -> Attempt, n: nat, source: seq<T>, start: int, end: int,
      acc: seq<T>, at: seq<nat>)
    requires 0 <= start && end < |source| && |at| == RangeCount(start, end) && AllSucceed(env, n, at)
    ensures Fetch(env, n, source, start, end, acc).err == None
    ensures Fetch(env, n, source, start, end, acc).attempts == if at == [] then n else at[|at| - 1] + 1
    decreases end + 1 - start
  {
    if start <= end {
      var mid := RangeEnd(start, end);
      var range := source[start..mid + 1];
      FetchUnfolds(env, n, source, start, end, acc);
      FetchRangeSucceedsExactly(env, n, range);
      SucceedsIfAllDo(env, at[0] + 1, source, mid + 1, end, acc + range, at[1..]);
    }
  }

  /** And only then. */
  lemma {:induction false} SucceedsOnlyIfAllDo<T>(env: nat -> Attempt, n: nat, source: seq<T>, start: int, end: int,
      acc: seq<T>) returns (at: seq<nat>)
    requires 0 <= start && end < |source| && Fetch(env, n, source, start, end, acc).err == None
    ensures |at| == RangeCount(start, end) && AllSucceed(env, n, at)
    decreases end + 1 - start
  {
    at := [];
    if start <= end {
      var mid := RangeEnd(start, end);
      var range := source[start..mid + 1];
      FetchUnfolds(env, n, source, start, end, acc);
      FetchRangeSucceedsExactly(env, n, range);
      var i: nat :| SucceedsAt(env, n, i);
      var rest := SucceedsOnlyIfAllDo(env, i + 1, source, mid + 1, end, acc + range);
      at := [i] + rest;
    }
  }

  /** A download succeeds exactly when each of its sub-ranges does, within three
      attempts each. */
  lemma {:induction false} DownloadSucceedsExactly<T>(env: nat -> Attempt, n: nat, source: seq<T>, start: int,
      end: int, acc: seq<T>)
    requires 0 <= start && end < |source|
    ensures Fetch(env, n, source, start, end, acc).err == None <==>
            exists at :: |at| == RangeCount(start, end) && AllSucceed(env, n, at)
  {
    if Fetch(env, n, source, start, end, acc).err == None {
      var at := SucceedsOnlyIfAllDo(env, n, source, start, end, acc);
    }
    if at :| |at| == RangeCount(start, end) && AllSucceed(env, n, at) {
      SucceedsIfAllDo(env, n, source, start, end, acc, at);
    }
  }

  /** Every attempt opens, copies and closes. */
  ghost predicate AllClean(env: nat -> Attempt) {
    forall i: nat :: env(i).Opens? && env(i).copyOk && env(i).closeOk
  }

  lemma {:induction false} CleanDownloadSucceeds<T>(env: nat -> Attempt, n: nat, source: seq<T>, start: int,
      end: int, acc: seq<T>)
    requires 0 <= start && end < |source| && AllClean(env)
    ensures var d := Fetch(env, n, source, start, end, acc);
            d.err == None && d.attempts == n + RangeCount(start, end)
    decreases end + 1 - start
  {
    if start <= end {
      var mid := RangeEnd(start, end);
      FetchUnfolds(env, n, source, start, end, acc);
      FetchRangeSucceedsExactly(env, n, source[start..mid + 1]);
      assert SucceedsAt(env, n, n);
      CleanDownloadSucceeds(env, n + 1, source, mid + 1, end, acc + source[start..mid + 1]);
    }
  }

  // ---------- Serving a Range request ----------

  /** A parsed Range header, `bytes=first-` or `bytes=first-last`. */
  datatype RangeHeader = NoRange | Bytes(first: int, last: Option<int>)

  /** The inclusive bounds handed to DownloadChunk. */
  function Bounds(h: RangeHeader, size: int): (int, int) {
    match h
    case NoRange => (0, size - 1)
    case Bytes(first, last) => (first, if last.Some? then last.value else size - 1)
  }

  function AnnouncedLength(h: RangeHeader, size: int): int {
    Bounds(h, size).1 - Bounds(h, size).0 + 1
  }

  /** The response body: what the download wrote, and after a failure the text
      of the error, which the controller writes to the same response. */
  function Body<T>(d: Download<T>, errorText: seq<T>): seq<T> {
    if d.err == None then d.written else d.written + errorText
  }

  /** For a range within the object, the download writes a prefix of the
      requested bytes, and on success the body is these bytes and has the announced
      length. After a failure the body is the requested bytes only if the ones
      still missing are, byte for byte, the error text; in particular, if the
      download stopped at the end or the text has another length, it is not. */
  lemma {:induction false} BodyHasAnnouncedLength<T>(env: nat -> Attempt, n: nat, source: seq<T>, h: RangeHeader,
      errorText: seq<T>)
    requires var (first, last) := Bounds(h, |source|); 0 <= first <= last < |source|
    ensures var (first, last) := Bounds(h, |source|);
            var requested := source[first..last + 1];
            var d := Fetch(env, n, source, first, last, []);
            && requested == (match h
                             case NoRange => source
                             case Bytes(a, None) => source[a..]
                             case Bytes(a, Some(b)) => source[a..b + 1])
            && |requested| == AnnouncedLength(h, |source|)
            && d.written <= requested
            && (d.err == None ==> Body(d, errorText) == requested)
            && (d.err != None ==> (Body(d, errorText) == requested <==> requested[|d.written|..] == errorText))
            && (|Body(d, errorText)| == AnnouncedLength(h, |source|) <==>
                  d.err == None || |errorText| == |requested| - |d.written|)
  {
    var (first, last) := Bounds(h, |source|);
    DownloadWritesPrefix(env, n, source, first, last, []);
    var d, requested := Fetch(env, n, source, first, last, []), source[first..last + 1];
    assert requested == d.written + requested[|d.written|..];
  }
}
