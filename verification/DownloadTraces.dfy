/** Two runs of a download that end with a wrong file. */
module DownloadTraces {
  import opened Bytes
  import opened Chunking
  import opened Downloading

  ghost predicate Leads(s: Session, m: Move, t: Session, remote: ByteString) {
    WellFormed(s) && Ready(s, m, remote) && t == Next(s, m, remote)
  }

  lemma {:induction false} ThreeMoves(s: Session, m0: Move, t: Session, m1: Move, u: Session, m2: Move, v: Session,
        remote: ByteString)
    requires Leads(s, m0, t, remote) && Leads(t, m1, u, remote) && Leads(u, m2, v, remote)
    ensures Moves(s, [m0, m1, m2], v, remote)
  {
    assert [m0, m1, m2][1..] == [m1, m2] && [m1, m2][1..] == [m2] && [m2][1..] == [];
    assert Moves(u, [m2], v, remote);
    assert Moves(t, [m1, m2], v, remote);
  }

  lemma {:induction false} MovesCompose(s: Session, first: seq<Move>, t: Session, second: seq<Move>, u: Session,
        remote: ByteString)
    requires Moves(s, first, t, remote) && Moves(t, second, u, remote)
    ensures Moves(s, first + second, u, remote)
    decreases |first|
  {
    if first == [] {
      assert first + second == second;
    } else {
      assert (first + second)[1..] == first[1..] + second;
      MovesCompose(Next(s, first[0], remote), first[1..], t, second, u, remote);
    }
  }

  // ---------- A server without ranges ----------

  /** A session with one chunk, whose last byte is numbered last, and one worker. */
  ghost function Solo(last: nat, file: ByteString, got: nat, status: Status, queue: seq<nat>, unfinished: int,
        wk: Worker): Session
  {
    Session(file, [Chunk(Range(0, last), got, status)], queue, unfinished, [wk])
  }

  lemma {:induction false} SoloTake(last: nat, file: ByteString, remote: ByteString)
    ensures Leads(Begin(file, [Range(0, last)]), Take(0), Solo(last, file, 0, Pending, [], 1, Trying(0, 0)), remote)
  {
    assert Begin(file, [Range(0, last)]) == Solo(last, file, 0, Pending, [0], 1, Idle);
  }

  lemma SoloConnect(last: nat, file: ByteString, got: nat, status: Status, retries: nat, remote: ByteString)
    requires retries < MAX_RETRIES
    ensures Leads(Solo(last, file, got, status, [], 1, Trying(0, retries)), Connect(0, false),
                  Solo(last, file, got, Downloading, [], 1, Streaming(0, retries, got, 0, |remote|)), remote)
  {
  }

  lemma SoloReceive(last: nat, file: ByteString, got: nat, retries: nat, n: nat, remote: ByteString)
    requires n <= |remote| && got <= |file|
    ensures Leads(Solo(last, file, got, Downloading, [], 1, Streaming(0, retries, got, 0, |remote|)), Receive(0, n),
                  Solo(last, WriteAt(file, got, remote[..n]), got + n, Downloading, [], 1,
                       Streaming(0, retries, got + n, n, |remote|)), remote)
  {
  }

  lemma SoloFail(last: nat, file: ByteString, got: nat, retries: nat, wk: Worker, remote: ByteString)
    requires retries < MAX_RETRIES && wk.Streaming? && wk.chunk == 0 && wk.retries == retries
    ensures Leads(Solo(last, file, got, Downloading, [], 1, wk), Fail(0),
                  Solo(last, file, got, Failed, [], 1, Trying(0, retries + 1)), remote)
  {
  }

  lemma {:induction false} SoloEnds(last: nat, file: ByteString, got: nat, retries: nat, remote: ByteString)
    ensures Moves(Solo(last, file, got, Downloading, [], 1, Streaming(0, retries, got, |remote|, |remote|)),
                  [Finish(0), Done(0)], Solo(last, file, got, Completed, [], 0, Idle), remote)
  {
    var finished := Solo(last, file, got, Completed, [], 1, Finishing);
    assert [Finish(0), Done(0)][1..] == [Done(0)] && [Done(0)][1..] == [];
    assert Moves(finished, [Done(0)], Solo(last, file, got, Completed, [], 0, Idle), remote);
  }

  /** The stream of the first attempt has brought n bytes. */
  lemma {:induction false} FirstAttempt(last: nat, file: ByteString, n: nat, remote: ByteString)
    requires n <= |remote|
    ensures Moves(Begin(file, [Range(0, last)]), [Take(0), Connect(0, false), Receive(0, n)],
                  Solo(last, WriteAt(file, 0, remote[..n]), n, Downloading, [], 1,
                       Streaming(0, 0, n, n, |remote|)), remote)
  {
    var start, taken := Begin(file, [Range(0, last)]), Solo(last, file, 0, Pending, [], 1, Trying(0, 0));
    var streaming := Solo(last, file, 0, Downloading, [], 1, Streaming(0, 0, 0, 0, |remote|));
    var broken := Solo(last, WriteAt(file, 0, remote[..n]), n, Downloading, [], 1, Streaming(0, 0, n, n, |remote|));
    SoloTake(last, file, remote);
    SoloConnect(last, file, 0, Pending, 0, remote);
    SoloReceive(last, file, 0, 0, n, remote);
    ThreeMoves(start, Take(0), taken, Connect(0, false), streaming, Receive(0, n), broken, remote);
  }

  /** A retry of a body that is sent from byte 0 writes it where the last attempt stopped. */
  lemma {:induction false} MisalignedRetry(last: nat, file: ByteString, got: nat, wk: Worker, remote: ByteString)
    requires got <= |file| && wk.Streaming? && wk.chunk == 0 && wk.retries == 0
    ensures Moves(Solo(last, file, got, Downloading, [], 1, wk), [Fail(0), Connect(0, false), Receive(0, |remote|)],
                  Solo(last, WriteAt(file, got, remote), got + |remote|, Downloading, [], 1,
                       Streaming(0, 1, got + |remote|, |remote|, |remote|)), remote)
  {
    assert remote[..|remote|] == remote;
    var broken := Solo(last, file, got, Downloading, [], 1, wk);
    var failed := Solo(last, file, got, Failed, [], 1, Trying(0, 1));
    var resumed := Solo(last, file, got, Downloading, [], 1, Streaming(0, 1, got, 0, |remote|));
    var received := Solo(last, WriteAt(file, got, remote), got + |remote|, Downloading, [], 1,
                         Streaming(0, 1, got + |remote|, |remote|, |remote|));
    SoloFail(last, file, got, 0, wk, remote);
    SoloConnect(last, file, got, Failed, 1, remote);
    SoloReceive(last, file, got, 1, |remote|, remote);
    ThreeMoves(broken, Fail(0), failed, Connect(0, false), resumed, Receive(0, |remote|), received, remote);
  }

  lemma {:induction false} WrittenBehindItself(file: ByteString, n: nat, remote: ByteString)
    requires |file| == |remote| && n <= |remote| && remote != []
    ensures var first := WriteAt(file, 0, remote[..n]);
      |first| == |file| && WriteAt(first, n, remote) == remote[..n] + remote
    ensures remote[..n] + remote == remote <==> n == 0
  {
    var first := WriteAt(file, 0, remote[..n]);
    assert first[..n] == remote[..n];
  }

  /** Without ranges the download is not safe to retry.  One chunk, a server that always sends the
      whole file: the stream breaks after n bytes, the retry resumes at position n with byte 0, and
      the download completes with the whole remote file written behind its own first n bytes.  That
      is the remote file if and only if the stream broke before its first byte. */
  lemma {:induction false} RetryWithoutRangesCorrupts(file: ByteString, n: nat, remote: ByteString)
      returns (moves: seq<Move>, t: Session)
    requires |file| == |remote| && n <= |remote| && remote != []
    ensures Tiles([Range(0, |remote| - 1)], |remote|)
    ensures Moves(Begin(file, [Range(0, |remote| - 1)]), moves, t, remote)
    ensures Joined(t) && t.file == remote[..n] + remote
    ensures t.file == remote <==> n == 0
  {
    var last, wk, size := |remote| - 1, Streaming(0, 0, n, n, |remote|), n + |remote|;
    var first, final := WriteAt(file, 0, remote[..n]), remote[..n] + remote;
    WrittenBehindItself(file, n, remote);
    var start, broken := Begin(file, [Range(0, last)]), Solo(last, first, n, Downloading, [], 1, wk);
    var received := Solo(last, final, size, Downloading, [], 1, Streaming(0, 1, size, |remote|, |remote|));
    t := Solo(last, final, size, Completed, [], 0, Idle);
    FirstAttempt(last, file, n, remote);
    MisalignedRetry(last, first, n, wk, remote);
    SoloEnds(last, final, size, 1, remote);
    var retry, end := [Fail(0), Connect(0, false), Receive(0, |remote|)], [Finish(0), Done(0)];
    MovesCompose(broken, retry, received, end, t, remote);
    MovesCompose(start, [Take(0), Connect(0, false), Receive(0, n)], broken, retry + end, t, remote);
    moves := [Take(0), Connect(0, false), Receive(0, n)] + (retry + end);
  }

  // ---------- A server with ranges ----------

  /** Two chunks of one byte each, and a worker for each. */
  ghost function Pair(file: ByteString, first: Chunk, second: Chunk, queue: seq<nat>, unfinished: int,
        wk0: Worker, wk1: Worker): Session
  {
    Session(file, [first, second], queue, unfinished, [wk0, wk1])
  }

  ghost function First(got: nat, status: Status): Chunk {
    Chunk(Range(0, 0), got, status)
  }

  ghost function Second(got: nat, status: Status): Chunk {
    Chunk(Range(1, 1), got, status)
  }

  /** Both workers take their chunks, and the second gets its response. */
  lemma {:induction false} BothStart(a: Byte, b: Byte, x: Byte, y: Byte)
    ensures Moves(Begin([a, b], [Range(0, 0), Range(1, 1)]), [Take(0), Take(1), Connect(1, true)],
                  Pair([a, b], First(0, Pending), Second(0, Downloading), [], 2, Trying(0, 0),
                       Streaming(1, 0, 1, 1, 2)), [x, y])
  {
    var c0, c1 := First(0, Pending), Second(0, Pending);
    var s0 := Pair([a, b], c0, c1, [0, 1], 2, Idle, Idle);
    assert Begin([a, b], [Range(0, 0), Range(1, 1)]) == s0;
    var s1 := Pair([a, b], c0, c1, [1], 2, Trying(0, 0), Idle);
    var s2 := Pair([a, b], c0, c1, [], 2, Trying(0, 0), Trying(1, 0));
    var s3 := Pair([a, b], c0, Second(0, Downloading), [], 2, Trying(0, 0), Streaming(1, 0, 1, 1, 2));
    ThreeMoves(s0, Take(0), s1, Take(1), s2, Connect(1, true), s3, [x, y]);
  }

  /** The second chunk arrives and is done with. */
  lemma {:induction false} SecondArrives(a: Byte, b: Byte, x: Byte, y: Byte)
    ensures Moves(Pair([a, b], First(0, Pending), Second(0, Downloading), [], 2, Trying(0, 0),
                       Streaming(1, 0, 1, 1, 2)),
                  [Receive(1, 1), Finish(1), Done(1)],
                  Pair([a, y], First(0, Pending), Second(1, Completed), [], 1, Trying(0, 0), Idle), [x, y])
  {
    var c0 := First(0, Pending);
    var s0 := Pair([a, b], c0, Second(0, Downloading), [], 2, Trying(0, 0), Streaming(1, 0, 1, 1, 2));
    assert WriteAt([a, b], 1, [x, y][1..2]) == [a, y];
    var s1 := Pair([a, y], c0, Second(1, Downloading), [], 2, Trying(0, 0), Streaming(1, 0, 2, 2, 2));
    var s2 := Pair([a, y], c0, Second(1, Completed), [], 2, Trying(0, 0), Finishing);
    var s3 := Pair([a, y], c0, Second(1, Completed), [], 1, Trying(0, 0), Idle);
    ThreeMoves(s0, Receive(1, 1), s1, Finish(1), s2, Done(1), s3, [x, y]);
  }

  /** All of the first chunk arrives, and its attempt fails. */
  lemma {:induction false} FirstArrivesAndFails(a: Byte, x: Byte, y: Byte)
    ensures Moves(Pair([a, y], First(0, Pending), Second(1, Completed), [], 1, Trying(0, 0), Idle),
                  [Connect(0, true), Receive(0, 1), Fail(0)],
                  Pair([x, y], First(1, Failed), Second(1, Completed), [], 1, Trying(0, 1), Idle), [x, y])
  {
    var c1 := Second(1, Completed);
    var s0 := Pair([a, y], First(0, Pending), c1, [], 1, Trying(0, 0), Idle);
    var s1 := Pair([a, y], First(0, Downloading), c1, [], 1, Streaming(0, 0, 0, 0, 1), Idle);
    assert WriteAt([a, y], 0, [x, y][0..1]) == [x, y];
    var s2 := Pair([x, y], First(1, Downloading), c1, [], 1, Streaming(0, 0, 1, 1, 1), Idle);
    var s3 := Pair([x, y], First(1, Failed), c1, [], 1, Trying(0, 1), Idle);
    ThreeMoves(s0, Connect(0, true), s1, Receive(0, 1), s2, Fail(0), s3, [x, y]);
  }

  /** The retry gets the whole file. */
  lemma {:induction false} RetryGetsEverything(x: Byte, y: Byte)
    ensures Moves(Pair([x, y], First(1, Failed), Second(1, Completed), [], 1, Trying(0, 1), Idle),
                  [Connect(0, false), Receive(0, 2), Finish(0)],
                  Pair([x, x, y], First(3, Completed), Second(1, Completed), [], 1, Finishing, Idle), [x, y])
  {
    var c1 := Second(1, Completed);
    var s0 := Pair([x, y], First(1, Failed), c1, [], 1, Trying(0, 1), Idle);
    var s1 := Pair([x, y], First(1, Downloading), c1, [], 1, Streaming(0, 1, 1, 0, 2), Idle);
    assert WriteAt([x, y], 1, [x, y][0..2]) == [x, x, y];
    var s2 := Pair([x, x, y], First(3, Downloading), c1, [], 1, Streaming(0, 1, 3, 2, 2), Idle);
    var s3 := Pair([x, x, y], First(3, Completed), c1, [], 1, Finishing, Idle);
    ThreeMoves(s0, Connect(0, false), s1, Receive(0, 2), s2, Finish(0), s3, [x, y]);
  }

  /** Ranges alone do not make a retry safe.  All bytes of a chunk arrive and the attempt fails after
      that; the retry asks for an empty interval, and a server that ignores it sends the whole file.
      The download completes with byte 0 of the remote file written over the chunk behind, which was
      there already, and all the rest behind that. */
  lemma {:induction false} RetryOfWholeChunkCorrupts(a: Byte, b: Byte, x: Byte, y: Byte)
      returns (moves: seq<Move>, t: Session)
    ensures Moves(Begin([a, b], [Range(0, 0), Range(1, 1)]), moves, t, [x, y])
    ensures Joined(t) && t.file == [x, x, y]
  {
    var remote: ByteString := [x, y];
    var start := Begin([a, b], [Range(0, 0), Range(1, 1)]);
    var c1 := Second(1, Completed);
    var s3 := Pair([a, b], First(0, Pending), Second(0, Downloading), [], 2, Trying(0, 0), Streaming(1, 0, 1, 1, 2));
    var s6 := Pair([a, y], First(0, Pending), c1, [], 1, Trying(0, 0), Idle);
    var s9 := Pair([x, y], First(1, Failed), c1, [], 1, Trying(0, 1), Idle);
    var s12 := Pair([x, x, y], First(3, Completed), c1, [], 1, Finishing, Idle);
    t := Pair([x, x, y], First(3, Completed), c1, [], 0, Idle, Idle);
    LastIsDone(x, y);
    RetryGetsEverything(x, y);
    moves := [Connect(0, false), Receive(0, 2), Finish(0)] + [Done(0)];
    MovesCompose(s9, [Connect(0, false), Receive(0, 2), Finish(0)], s12, [Done(0)], t, remote);
    FirstArrivesAndFails(a, x, y);
    MovesCompose(s6, [Connect(0, true), Receive(0, 1), Fail(0)], s9, moves, t, remote);
    moves := [Connect(0, true), Receive(0, 1), Fail(0)] + moves;
    SecondArrives(a, b, x, y);
    MovesCompose(s3, [Receive(1, 1), Finish(1), Done(1)], s6, moves, t, remote);
    moves := [Receive(1, 1), Finish(1), Done(1)] + moves;
    BothStart(a, b, x, y);
    MovesCompose(start, [Take(0), Take(1), Connect(1, true)], s3, moves, t, remote);
    moves := [Take(0), Take(1), Connect(1, true)] + moves;
  }

  lemma {:induction false} LastIsDone(x: Byte, y: Byte)
    ensures Moves(Pair([x, x, y], First(3, Completed), Second(1, Completed), [], 1, Finishing, Idle), [Done(0)],
                  Pair([x, x, y], First(3, Completed), Second(1, Completed), [], 0, Idle, Idle), [x, y])
  {
    assert [Done(0)][1..] == [];
  }
}
