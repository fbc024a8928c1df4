/** What ends up in the output file of a download (DownloadSession._download_chunk), and exactly when
    it is the remote file. */
module Assembly {
  import opened Bytes
  import opened Wrappers
  import opened Chunking
  import opened Downloading

  // ---------- File assembly ----------

  /** The first got bytes of the chunk's region are the remote ones. */
  ghost predicate PrefixArrived(file: ByteString, chunk: Chunk, remote: ByteString) {
    && chunk.range.start + chunk.got <= |remote| == |file|
    && (forall b :: chunk.range.start <= b < chunk.range.start + chunk.got ==> file[b] == remote[b])
  }

  ghost predicate Ranges(s: Session, ranges: seq<Range>) {
    |s.chunks| == |ranges| && forall c :: 0 <= c < |ranges| ==> s.chunks[c].range == ranges[c]
  }

  /** A stream is aligned if it carries each remote byte to its own position.  One that is not has
      not ended yet. */
  ghost predicate Tracks(wk: Worker, chunk: Chunk, remote: ByteString) {
    wk.Streaming? ==>
      && wk.at == chunk.range.start + chunk.got && wk.upto <= |remote|
      && (if wk.src == wk.at then chunk.range.end < wk.upto else wk.src < wk.upto)
  }

  ghost predicate PrefixesArrived(file: ByteString, chunks: seq<Chunk>, remote: ByteString) {
    forall c :: 0 <= c < |chunks| ==> PrefixArrived(file, chunks[c], remote)
  }

  ghost predicate AllPrefixesArrived(s: Session, remote: ByteString) {
    PrefixesArrived(s.file, s.chunks, remote)
  }

  ghost predicate FileInv(s: Session, ranges: seq<Range>, remote: ByteString) {
    && Ranges(s, ranges) && Tiles(ranges, |remote|) && |s.file| == |remote|
    && AllPrefixesArrived(s, remote)
    && (forall c :: 0 <= c < |s.chunks| && s.chunks[c].status.Completed? ==>
          s.chunks[c].range.end < s.chunks[c].range.start + s.chunks[c].got)
    && (forall w :: 0 <= w < |s.workers| && Holds(s.workers[w]) ==>
          s.workers[w].chunk < |s.chunks| && Tracks(s.workers[w], s.chunks[s.workers[w].chunk], remote))
  }

  /** Bytes arrive on a stream that carries them to foreign positions. */
  ghost predicate Spoils(s: Session, m: Move)
    requires m.w < |s.workers| && (m.Receive? ==> s.workers[m.w].Streaming?)
  {
    m.Receive? && m.n > 0 && s.workers[m.w].src != s.workers[m.w].at
  }

  lemma {:induction false} WriteInPlace(file: ByteString, at: nat, n: nat, remote: ByteString)
    requires |file| == |remote| && at + n <= |remote|
    ensures var written := WriteAt(file, at, remote[at..at + n]);
      && |written| == |remote|
      && forall b :: 0 <= b < |remote| ==> written[b] == if at <= b < at + n then remote[b] else file[b]
  {
  }

  lemma {:induction false} WriteKeepsPrefix(file: ByteString, at: nat, n: nat, chunk: Chunk, got: nat,
        remote: ByteString)
    requires at + n <= |remote| && PrefixArrived(file, chunk, remote)
    requires got == chunk.got || (at == chunk.range.start + chunk.got && got == chunk.got + n)
    ensures PrefixArrived(WriteAt(file, at, remote[at..at + n]), chunk.(got := got), remote)
  {
    WriteInPlace(file, at, n, remote);
  }

  lemma {:induction false} WriteKeepsPrefixes(file: ByteString, chunks: seq<Chunk>, c: nat, n: nat, remote: ByteString)
    requires PrefixesArrived(file, chunks, remote) && c < |chunks|
    requires chunks[c].range.start + chunks[c].got + n <= |remote| == |file|
    ensures var at := chunks[c].range.start + chunks[c].got;
      PrefixesArrived(WriteAt(file, at, remote[at..at + n]), chunks[c := chunks[c].(got := chunks[c].got + n)], remote)
  {
    var at, after := chunks[c].range.start + chunks[c].got, chunks[c := chunks[c].(got := chunks[c].got + n)];
    forall k | 0 <= k < |chunks|
      ensures PrefixArrived(WriteAt(file, at, remote[at..at + n]), after[k], remote)
    {
      WriteKeepsPrefix(file, at, n, chunks[k], after[k].got, remote);
    }
  }

  lemma {:induction false} ReceiveIsInPlace(s: Session, w: nat, n: nat, ranges: seq<Range>, remote: ByteString)
    requires WellFormed(s) && FileInv(s, ranges, remote) && Ready(s, Receive(w, n), remote)
    requires !Spoils(s, Receive(w, n))
    ensures var wk := s.workers[w]; var at, c := wk.at, wk.chunk;
      && c < |s.chunks| && at == s.chunks[c].range.start + s.chunks[c].got && at + n <= |remote|
      && remote[wk.src..wk.src + n] == remote[at..at + n]
  {
    var wk := s.workers[w];
    assert Tracks(wk, s.chunks[wk.chunk], remote);
    assert PrefixArrived(s.file, s.chunks[wk.chunk], remote);
  }

  lemma {:induction false} ReceivedKeepsPrefixes(s: Session, w: nat, at: nat, c: nat, n: nat, remote: ByteString)
    requires w < |s.workers| && s.workers[w].Streaming? && s.workers[w].chunk == c < |s.chunks|
    requires s.workers[w].at == at == s.chunks[c].range.start + s.chunks[c].got
    requires at + n <= |remote| == |s.file| && AllPrefixesArrived(s, remote)
    ensures AllPrefixesArrived(Received(s, w, remote[at..at + n]), remote)
  {
    var t := Received(s, w, remote[at..at + n]);
    WriteKeepsPrefixes(s.file, s.chunks, c, n, remote);
    assert t.file == WriteAt(s.file, at, remote[at..at + n]);
    assert t.chunks == s.chunks[c := s.chunks[c].(got := s.chunks[c].got + n)];
  }

  lemma {:induction false} ReceiveKeepsPrefixes(s: Session, w: nat, n: nat, ranges: seq<Range>, remote: ByteString)
    requires WellFormed(s) && FileInv(s, ranges, remote) && Ready(s, Receive(w, n), remote)
    requires !Spoils(s, Receive(w, n))
    ensures var t := Next(s, Receive(w, n), remote);
      |t.file| == |remote| && AllPrefixesArrived(t, remote)
  {
    var at, c := s.workers[w].at, s.workers[w].chunk;
    ReceiveIsInPlace(s, w, n, ranges, remote);
    ReceivedIsNext(s, w, remote[at..at + n], remote);
    ReceivedKeepsPrefixes(s, w, at, c, n, remote);
    assert PrefixArrived(Next(s, Receive(w, n), remote).file, Next(s, Receive(w, n), remote).chunks[c], remote);
  }

  lemma {:induction false} ReceiveKeepsFile(s: Session, w: nat, n: nat, ranges: seq<Range>, remote: ByteString)
    requires QueueInv(s) && FileInv(s, ranges, remote) && Ready(s, Receive(w, n), remote)
    requires !Spoils(s, Receive(w, n))
    ensures FileInv(Next(s, Receive(w, n), remote), ranges, remote)
  {
    var t, c := Next(s, Receive(w, n), remote), s.workers[w].chunk;
    ReceiveKeepsPrefixes(s, w, n, ranges, remote);
    assert HeldBy(s, c, w);
    forall v | 0 <= v < |t.workers| && Holds(t.workers[v])
      ensures t.workers[v].chunk < |t.chunks| && Tracks(t.workers[v], t.chunks[t.workers[v].chunk], remote)
    {
      if v != w {
        assert t.workers[v] == s.workers[v] && s.workers[v].chunk != c;
      }
    }
  }

  lemma {:induction false} ConnectKeepsFile(s: Session, w: nat, honoured: bool, ranges: seq<Range>, remote: ByteString)
    requires QueueInv(s) && FileInv(s, ranges, remote) && Ready(s, Connect(w, honoured), remote)
    ensures FileInv(Next(s, Connect(w, honoured), remote), ranges, remote)
  {
    var t, c := Next(s, Connect(w, honoured), remote), s.workers[w].chunk;
    EndsWithin(ranges, |remote|, c);
    assert HeldBy(s, c, w) && PrefixArrived(s.file, s.chunks[c], remote);
    forall k | 0 <= k < |t.chunks|
      ensures PrefixArrived(t.file, t.chunks[k], remote)
    {
      assert PrefixArrived(s.file, s.chunks[k], remote);
    }
    forall v | 0 <= v < |t.workers| && Holds(t.workers[v])
      ensures t.workers[v].chunk < |t.chunks| && Tracks(t.workers[v], t.chunks[t.workers[v].chunk], remote)
    {
      if v != w {
        assert t.workers[v] == s.workers[v] && s.workers[v].chunk != c;
      }
    }
  }

  lemma {:induction false} EndsWithin(ranges: seq<Range>, totalSize: nat, c: nat)
    requires Tiles(ranges, totalSize) && c < |ranges|
    ensures ranges[c].end < totalSize
  {
    if c < |ranges| - 1 {
      LaterStartsHigher(ranges, totalSize, c, |ranges| - 1);
    }
  }

  /** A move that leaves the file alone and starts no stream: only the worker's own chunk, if it has
      one, can change, and it either keeps its bytes or gives them all up. */
  lemma {:induction false} QuietMoveKeepsFile(s: Session, t: Session, w: nat, c: nat, ranges: seq<Range>,
        remote: ByteString)
    requires QueueInv(s) && FileInv(s, ranges, remote) && w < |s.workers| == |t.workers| && t.file == s.file
    requires t.workers == s.workers[w := t.workers[w]] && !t.workers[w].Streaming?
    requires Holds(t.workers[w]) ==> t.workers[w].chunk < |t.chunks|
    requires |t.chunks| == |s.chunks|
    requires t.chunks == s.chunks || (HeldBy(s, c, w) && c < |s.chunks| && t.chunks == s.chunks[c := t.chunks[c]]
      && t.chunks[c].range == s.chunks[c].range && t.chunks[c].got in {0, s.chunks[c].got}
      && (t.chunks[c].status.Completed? ==> s.chunks[c].range.end < s.chunks[c].range.start + t.chunks[c].got))
    ensures FileInv(t, ranges, remote)
  {
    forall k | 0 <= k < |t.chunks|
      ensures PrefixArrived(t.file, t.chunks[k], remote)
    {
      assert PrefixArrived(s.file, s.chunks[k], remote);
    }
    forall v | 0 <= v < |t.workers| && Holds(t.workers[v])
      ensures t.workers[v].chunk < |t.chunks| && Tracks(t.workers[v], t.chunks[t.workers[v].chunk], remote)
    {
      if v != w {
        assert t.workers[v] == s.workers[v];
      }
    }
  }

  lemma {:induction false} NextKeepsFile(s: Session, m: Move, ranges: seq<Range>, remote: ByteString)
    requires QueueInv(s) && FileInv(s, ranges, remote) && Ready(s, m, remote) && !Spoils(s, m)
    ensures FileInv(Next(s, m, remote), ranges, remote)
  {
    var t, c := Next(s, m, remote), if Holds(s.workers[m.w]) then s.workers[m.w].chunk else 0;
    match m
    case Connect(w, honoured) => ConnectKeepsFile(s, w, honoured, ranges, remote);
    case Receive(w, n) => ReceiveKeepsFile(s, w, n, ranges, remote);
    case _ => QuietMoveKeepsFile(s, t, m.w, c, ranges, remote);
  }

  // ---------- Runs ----------

  /** These moves can be made one after the other. */
  ghost predicate Possible(s: Session, moves: seq<Move>, remote: ByteString)
    decreases |moves|
  {
    moves == [] ||
    (WellFormed(s) && Ready(s, moves[0], remote) && Possible(Next(s, moves[0], remote), moves[1..], remote))
  }

  lemma {:induction false} MovesArePossible(s: Session, moves: seq<Move>, t: Session, remote: ByteString)
    requires Moves(s, moves, t, remote)
    ensures Possible(s, moves, remote)
    decreases |moves|
  {
    if moves != [] {
      MovesArePossible(Next(s, moves[0], remote), moves[1..], t, remote);
    }
  }

  /** Where the first misplaced byte of a run is written. */
  ghost function FirstMisplaced(s: Session, moves: seq<Move>, remote: ByteString): Option<nat>
    requires Possible(s, moves, remote)
    decreases |moves|
  {
    if moves == [] then None
    else if Spoils(s, moves[0]) then Some(s.workers[moves[0].w].at)
    else FirstMisplaced(Next(s, moves[0], remote), moves[1..], remote)
  }

  /** Before, between and after the moves, what was downloaded of every chunk is right. */
  ghost predicate RightThroughout(s: Session, moves: seq<Move>, remote: ByteString)
    requires Possible(s, moves, remote)
    decreases |moves|
  {
    && AllPrefixesArrived(s, remote)
    && (moves != [] ==> RightThroughout(Next(s, moves[0], remote), moves[1..], remote))
  }

  lemma {:induction false} BeginFile(file: ByteString, ranges: seq<Range>, remote: ByteString)
    requires Tiles(ranges, |remote|) && |file| == |remote|
    ensures QueueInv(Begin(file, ranges)) && FileInv(Begin(file, ranges), ranges, remote)
  {
    BeginQueue(file, ranges);
    forall c | 0 <= c < |ranges|
      ensures ranges[c].end < |remote|
    {
      EndsWithin(ranges, |remote|, c);
    }
  }

  lemma {:induction false} MovesKeepFile(s: Session, moves: seq<Move>, t: Session, ranges: seq<Range>,
        remote: ByteString)
    requires QueueInv(s) && FileInv(s, ranges, remote)
    requires Moves(s, moves, t, remote) && Possible(s, moves, remote) && FirstMisplaced(s, moves, remote) == None
    ensures FileInv(t, ranges, remote)
    decreases |moves|
  {
    if moves != [] {
      NextKeepsQueue(s, moves[0], remote);
      NextKeepsFile(s, moves[0], ranges, remote);
      MovesKeepFile(Next(s, moves[0], remote), moves[1..], t, ranges, remote);
    }
  }

  /** File assembly.  Over any interleaving of workers, failures in mid-stream, resumptions and
      re-queues in which no byte is misplaced, the bytes downloaded so far of every chunk are the
      remote ones in place, and when join() returns the output file is the remote file. */
  lemma {:induction false} DownloadAssemblesFile(file: ByteString, ranges: seq<Range>, moves: seq<Move>, t: Session,
        remote: ByteString)
    requires Tiles(ranges, |remote|) && |file| == |remote|
    requires Moves(Begin(file, ranges), moves, t, remote) && Possible(Begin(file, ranges), moves, remote)
    requires FirstMisplaced(Begin(file, ranges), moves, remote) == None
    ensures AllPrefixesArrived(t, remote)
    ensures Joined(t) ==> t.file == remote
  {
    BeginFile(file, ranges, remote);
    MovesKeepFile(Begin(file, ranges), moves, t, ranges, remote);
    MovesKeepQueue(Begin(file, ranges), moves, t, remote);
    if Joined(t) {
      JoinMeansCompleted(t);
      forall b | 0 <= b < |remote|
        ensures t.file[b] == remote[b]
      {
        var c := SomeChunkContains(ranges, |remote|, b);
        assert PrefixArrived(t.file, t.chunks[c], remote);
      }
    }
  }

  // ---------- Exactly when the file is right ----------

  /** Equal but for what is written in the file. */
  ghost predicate SameShape(s: Session, t: Session) {
    s.(file := []) == t.(file := []) && |s.file| == |t.file|
  }

  lemma {:induction false} NextSameShape(s: Session, t: Session, m: Move, remote: ByteString, other: ByteString)
    requires SameShape(s, t) && |remote| == |other| && WellFormed(s) && Ready(s, m, remote)
    ensures WellFormed(t) && Ready(t, m, other)
    ensures SameShape(Next(s, m, remote), Next(t, m, other))
  {
  }

  /** Which moves are possible and where the first byte is misplaced does not depend on the bytes. */
  lemma {:induction false} ShapeDecides(s: Session, t: Session, moves: seq<Move>, remote: ByteString, other: ByteString)
    requires SameShape(s, t) && |remote| == |other| && Possible(s, moves, remote)
    ensures Possible(t, moves, other)
    ensures FirstMisplaced(s, moves, remote) == FirstMisplaced(t, moves, other)
    decreases |moves|
  {
    if moves != [] {
      NextSameShape(s, t, moves[0], remote, other);
      ShapeDecides(Next(s, moves[0], remote), Next(t, moves[0], other), moves[1..], remote, other);
    }
  }

  lemma {:induction false} NothingMisplacedIsRight(s: Session, moves: seq<Move>, ranges: seq<Range>, remote: ByteString)
    requires QueueInv(s) && FileInv(s, ranges, remote) && Possible(s, moves, remote)
    requires FirstMisplaced(s, moves, remote) == None
    ensures RightThroughout(s, moves, remote)
    decreases |moves|
  {
    if moves != [] {
      NextKeepsQueue(s, moves[0], remote);
      NextKeepsFile(s, moves[0], ranges, remote);
      NothingMisplacedIsRight(Next(s, moves[0], remote), moves[1..], ranges, remote);
    }
  }

  /** The remote file in which only the byte at i is not 0. */
  ghost function OneAt(i: nat, length: nat): (remote: ByteString)
    ensures |remote| == length
  {
    seq(length, k => if k == i then 1 else 0)
  }

  lemma {:induction false} SpoilingIsWrong(s: Session, m: Move, ranges: seq<Range>, remote: ByteString)
    requires QueueInv(s) && FileInv(s, ranges, remote) && Ready(s, m, remote) && Spoils(s, m)
    requires remote == OneAt(s.workers[m.w].at, |remote|)
    ensures !AllPrefixesArrived(Next(s, m, remote), remote)
  {
    var wk, t := s.workers[m.w], Next(s, m, remote);
    var before, after := s.chunks[wk.chunk], t.chunks[wk.chunk];
    assert after.range.start + after.got == wk.at + m.n;
    if wk.at + m.n <= |remote| == |t.file| {
      assert t.file[wk.at] == remote[wk.src] == 0 && remote[wk.at] == 1;
    }
    assert !PrefixArrived(t.file, after, remote);
  }

  lemma {:induction false} MisplacedIsWrong(s: Session, moves: seq<Move>, ranges: seq<Range>, remote: ByteString,
        at: nat)
    requires QueueInv(s) && FileInv(s, ranges, remote) && Possible(s, moves, remote)
    requires FirstMisplaced(s, moves, remote) == Some(at) && remote == OneAt(at, |remote|)
    ensures !RightThroughout(s, moves, remote)
    decreases |moves|
  {
    if Spoils(s, moves[0]) {
      SpoilingIsWrong(s, moves[0], ranges, remote);
    } else {
      NextKeepsQueue(s, moves[0], remote);
      NextKeepsFile(s, moves[0], ranges, remote);
      MisplacedIsWrong(Next(s, moves[0], remote), moves[1..], ranges, remote, at);
    }
  }

  ghost predicate PossibleAndRight(s: Session, moves: seq<Move>, remote: ByteString) {
    Possible(s, moves, remote) && RightThroughout(s, moves, remote)
  }

  /** Exactly when the download is right.  For any run of any download: at every point of it, what was
      downloaded of every chunk is right, whatever the bytes of the remote file are, if and only if
      no byte was ever received on a stream that is not aligned. */
  lemma {:induction false} RightThroughoutIff(file: ByteString, ranges: seq<Range>, moves: seq<Move>,
        sample: ByteString)
    requires Tiles(ranges, |file|) && |sample| == |file| && Possible(Begin(file, ranges), moves, sample)
    ensures FirstMisplaced(Begin(file, ranges), moves, sample) == None <==>
      forall remote: ByteString :: |remote| == |file| ==> PossibleAndRight(Begin(file, ranges), moves, remote)
  {
    var s := Begin(file, ranges);
    match FirstMisplaced(s, moves, sample)
    case None =>
      forall remote: ByteString | |remote| == |file|
        ensures PossibleAndRight(s, moves, remote)
      {
        ShapeDecides(s, s, moves, sample, remote);
        BeginFile(file, ranges, remote);
        NothingMisplacedIsRight(s, moves, ranges, remote);
      }
    case Some(at) =>
      var remote := OneAt(at, |file|);
      ShapeDecides(s, s, moves, sample, remote);
      BeginFile(file, ranges, remote);
      MisplacedIsWrong(s, moves, ranges, remote, at);
      assert !PossibleAndRight(s, moves, remote);
  }

  /** The response may be used: it honours the Range header, or the bytes asked for start at 0. */
  ghost predicate Usable(s: Session, m: Move)
    requires WellFormed(s) && m.w < |s.workers|
  {
    m.Connect? && s.workers[m.w].Trying? ==>
      m.honoured || s.chunks[s.workers[m.w].chunk].range.start + s.chunks[s.workers[m.w].chunk].got == 0
  }

  /** In these moves a byte is received from a response that may not be used; strays are the workers
      whose stream comes from such a response at the start. */
  ghost predicate StrayBytes(s: Session, moves: seq<Move>, remote: ByteString, strays: set<nat>)
    requires Possible(s, moves, remote)
    decreases |moves|
  {
    moves != [] &&
    var t := Next(s, moves[0], remote);
    match moves[0]
    case Receive(w, n) => (n > 0 && w in strays) || StrayBytes(t, moves[1..], remote, strays)
    case Connect(w, _) =>
      StrayBytes(t, moves[1..], remote, if Usable(s, moves[0]) then strays - {w} else strays + {w})
    case _ => StrayBytes(t, moves[1..], remote, strays)
  }

  ghost predicate Strayed(s: Session, strays: set<nat>) {
    forall w :: 0 <= w < |s.workers| && s.workers[w].Streaming? ==>
      (w in strays <==> s.workers[w].src != s.workers[w].at)
  }

  lemma {:induction false} StrayBytesAreMisplaced(s: Session, moves: seq<Move>, remote: ByteString, strays: set<nat>)
    requires Possible(s, moves, remote) && Strayed(s, strays)
    ensures StrayBytes(s, moves, remote, strays) <==> FirstMisplaced(s, moves, remote) != None
    decreases |moves|
  {
    if moves != [] && !Spoils(s, moves[0]) {
      var t, w := Next(s, moves[0], remote), moves[0].w;
      var after := if !moves[0].Connect? then strays else if Usable(s, moves[0]) then strays - {w} else strays + {w};
      assert forall v :: 0 <= v < |s.workers| && v != w ==> t.workers[v] == s.workers[v];
      StrayBytesAreMisplaced(t, moves[1..], remote, after);
    }
  }

  /** The same condition in terms of responses: the download is right at every moment, whatever the
      remote bytes are, if and only if no byte is ever received from a response that ignores the Range
      header of a request resuming behind byte 0. */
  lemma {:induction false} RightIffNoStrayBytes(file: ByteString, ranges: seq<Range>, moves: seq<Move>,
        sample: ByteString)
    requires Tiles(ranges, |file|) && |sample| == |file| && Possible(Begin(file, ranges), moves, sample)
    ensures !StrayBytes(Begin(file, ranges), moves, sample, {}) <==>
      forall remote: ByteString :: |remote| == |file| ==> PossibleAndRight(Begin(file, ranges), moves, remote)
  {
    StrayBytesAreMisplaced(Begin(file, ranges), moves, sample, {});
    RightThroughoutIff(file, ranges, moves, sample);
  }

  ghost predicate AllUsable(s: Session, moves: seq<Move>, remote: ByteString)
    decreases |moves|
  {
    moves == [] ||
    (&& WellFormed(s) && Ready(s, moves[0], remote) && Usable(s, moves[0])
     && AllUsable(Next(s, moves[0], remote), moves[1..], remote))
  }

  ghost predicate StreamsAligned(s: Session) {
    forall w :: 0 <= w < |s.workers| && s.workers[w].Streaming? ==> s.workers[w].src == s.workers[w].at
  }

  /** So a run whose responses are all usable misplaces nothing. */
  lemma {:induction false} UsableRunsMisplaceNothing(s: Session, moves: seq<Move>, remote: ByteString)
    requires StreamsAligned(s) && AllUsable(s, moves, remote)
    ensures Possible(s, moves, remote) && FirstMisplaced(s, moves, remote) == None
    decreases |moves|
  {
    if moves != [] {
      var t := Next(s, moves[0], remote);
      assert forall w :: 0 <= w < |s.workers| && w != moves[0].w ==> t.workers[w] == s.workers[w];
      UsableRunsMisplaceNothing(t, moves[1..], remote);
    }
  }

  /** A server that honours every range there is to honour gives usable responses as long as no
      attempt is made with all bytes of the chunk already there. */
  lemma {:induction false} RangesAreUsableWhileBytesAreMissing(s: Session, w: nat, honoured: bool, remote: ByteString)
    requires WellFormed(s) && Ready(s, Connect(w, honoured), remote)
    requires honoured <==> AsksForBytes(s.chunks[s.workers[w].chunk])
    ensures var chunk := s.chunks[s.workers[w].chunk];
      Usable(s, Connect(w, honoured)) <==> chunk.got < chunk.range.Size() || chunk.range.start + chunk.got == 0
  {
  }
}
