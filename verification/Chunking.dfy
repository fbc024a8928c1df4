/** Splitting a file into chunks (aetherbond/client/downloader.py, DownloadSession.initialize). */
module Chunking {
  import opened Wrappers

  /** First and last byte of a chunk, both included. */
  datatype Range = Range(start: nat, end: nat) {
    function Size(): int {
      end - start + 1
    }
  }

  /** Nonempty ranges that follow one another without gap or overlap from byte 0 to the last byte. */
  ghost predicate Tiles(ranges: seq<Range>, totalSize: nat) {
    && ranges != [] && ranges[0].start == 0 && ranges[|ranges| - 1].end + 1 == totalSize
    && (forall i :: 0 <= i < |ranges| ==> ranges[i].start <= ranges[i].end)
    && (forall i :: 0 < i < |ranges| ==> ranges[i].start == ranges[i - 1].end + 1)
  }

  ghost predicate EvenlySized(ranges: seq<Range>, chunkSize: nat) {
    && (forall i :: 0 <= i < |ranges| ==> ranges[i].start == i * chunkSize && ranges[i].Size() <= chunkSize)
    && (forall i :: 0 <= i < |ranges| - 1 ==> ranges[i].Size() == chunkSize)
  }

  /** None is the failed initialization: an empty or unknown file, or a chunk size of zero. */
  method PlanChunks(totalSize: int, chunkSize: nat, acceptRanges: bool) returns (plan: Option<seq<Range>>)
    ensures plan.None? <==> totalSize <= 0 || (acceptRanges && chunkSize == 0)
    ensures plan.Some? ==> Tiles(plan.value, totalSize)
    ensures plan.Some? && acceptRanges ==> EvenlySized(plan.value, chunkSize)
    ensures plan.Some? && !acceptRanges ==> |plan.value| == 1
  {
    if totalSize <= 0 || (acceptRanges && chunkSize == 0) {
      return None;
    }
    if !acceptRanges {
      return Some([Range(0, totalSize - 1)]);
    }
    var count := (totalSize + chunkSize - 1) / chunkSize;
    CeilingDivision(totalSize, chunkSize, count);
    var chunks: seq<Range> := [];
    for i := 0 to count
      invariant |chunks| == i
      invariant forall j :: 0 <= j < i ==> chunks[j] == RangeAt(j, totalSize, chunkSize)
    {
      NextStart(i, chunkSize);
      ProductGrows(i, count - 1, chunkSize);
      var start := i * chunkSize;
      var end := if start + chunkSize - 1 <= totalSize - 1 then start + chunkSize - 1 else totalSize - 1;
      chunks := chunks + [Range(start, end)];
    }
    PlanTiles(chunks, totalSize, chunkSize);
    plan := Some(chunks);
  }

  ghost function RangeAt(i: nat, totalSize: nat, chunkSize: nat): Range
    requires totalSize > 0 && chunkSize > 0
  {
    Range(i * chunkSize, if (i + 1) * chunkSize <= totalSize then (i + 1) * chunkSize - 1 else totalSize - 1)
  }

  lemma CeilingDivision(totalSize: nat, chunkSize: nat, count: nat)
    requires totalSize > 0 && chunkSize > 0 && count == (totalSize + chunkSize - 1) / chunkSize
    ensures count >= 1 && (count - 1) * chunkSize < totalSize <= count * chunkSize
  {
    var a := totalSize + chunkSize - 1;
    assert a == count * chunkSize + a % chunkSize;
    assert (count - 1) * chunkSize == count * chunkSize - chunkSize;
    assert count == 0 ==> a < chunkSize;
  }

  lemma NextStart(i: nat, chunkSize: nat)
    ensures (i + 1) * chunkSize == i * chunkSize + chunkSize
  {
  }

  lemma ProductGrows(i: int, j: int, chunkSize: nat)
    requires 0 <= i <= j
    ensures i * chunkSize <= j * chunkSize
  {
    assert (j - i) * chunkSize >= 0;
  }

  lemma {:induction false} PlanTiles(chunks: seq<Range>, totalSize: nat, chunkSize: nat)
    requires totalSize > 0 && chunkSize > 0 && |chunks| >= 1
    requires (|chunks| - 1) * chunkSize < totalSize <= |chunks| * chunkSize
    requires forall j :: 0 <= j < |chunks| ==> chunks[j] == RangeAt(j, totalSize, chunkSize)
    ensures Tiles(chunks, totalSize) && EvenlySized(chunks, chunkSize)
  {
    forall i | 0 <= i < |chunks|
      ensures chunks[i].start == i * chunkSize <= chunks[i].end
      ensures chunks[i].Size() <= chunkSize
      ensures i < |chunks| - 1 ==> chunks[i].end + 1 == (i + 1) * chunkSize && chunks[i].Size() == chunkSize
    {
      NextStart(i, chunkSize);
      ProductGrows(i, |chunks| - 1, chunkSize);
      if i < |chunks| - 1 {
        ProductGrows(i + 1, |chunks| - 1, chunkSize);
      }
    }
  }

  // ---------- What a plan is for ----------

  ghost function TotalSize(ranges: seq<Range>): int {
    if ranges == [] then 0 else TotalSize(ranges[..|ranges| - 1]) + ranges[|ranges| - 1].Size()
  }

  /** The sizes add up to the file size. */
  lemma {:induction false} SizesAddUp(ranges: seq<Range>, totalSize: nat)
    requires Tiles(ranges, totalSize)
    ensures TotalSize(ranges) == totalSize
    decreases |ranges|
  {
    var last := |ranges| - 1;
    if last == 0 {
      assert TotalSize(ranges[..0]) == 0;
    } else {
      SizesAddUp(ranges[..last], ranges[last].start);
    }
  }

  ghost predicate Contains(r: Range, b: nat) {
    r.start <= b <= r.end
  }

  lemma {:induction false} LaterStartsHigher(ranges: seq<Range>, totalSize: nat, i: nat, j: nat)
    requires Tiles(ranges, totalSize) && i < j < |ranges|
    ensures ranges[i].end < ranges[j].start
  {
    if i + 1 < j {
      LaterStartsHigher(ranges, totalSize, i, j - 1);
    }
  }

  lemma {:induction false} SomeChunkContains(ranges: seq<Range>, totalSize: nat, b: nat) returns (i: nat)
    requires Tiles(ranges, totalSize) && b < totalSize
    ensures i < |ranges| && Contains(ranges[i], b)
    decreases |ranges|
  {
    var last := |ranges| - 1;
    if ranges[last].start <= b {
      i := last;
    } else {
      i := SomeChunkContains(ranges[..last], ranges[last].start, b);
    }
  }

  /** Every byte lies in exactly one chunk of a plan, the one numbered by its quotient. */
  lemma {:induction false} ByteLiesInItsQuotient(ranges: seq<Range>, totalSize: nat, chunkSize: nat, b: nat)
    requires Tiles(ranges, totalSize) && EvenlySized(ranges, chunkSize) && chunkSize > 0 && b < totalSize
    ensures b / chunkSize < |ranges|
    ensures forall i :: 0 <= i < |ranges| ==> (Contains(ranges[i], b) <==> i == b / chunkSize)
  {
    var i := SomeChunkContains(ranges, totalSize, b);
    QuotientIs(b, i, chunkSize);
    forall j | 0 <= j < |ranges| && Contains(ranges[j], b)
      ensures j == i
    {
      if i < j {
        LaterStartsHigher(ranges, totalSize, i, j);
      } else if j < i {
        LaterStartsHigher(ranges, totalSize, j, i);
      }
    }
  }

  lemma QuotientIs(b: nat, i: nat, size: nat)
    requires size > 0 && i * size <= b < i * size + size
    ensures b / size == i
  {
    var q := b / size;
    assert b == q * size + b % size;
    if q < i {
      ProductGrows(q + 1, i, size);
      NextStart(q, size);
    } else if q > i {
      ProductGrows(i + 1, q, size);
      NextStart(i, size);
    }
  }
}
