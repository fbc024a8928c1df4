/** The download itself (DownloadSession.start and _download_chunk): workers, a shared queue with
    its count of unfinished items, and one output file written at offsets.

    A move is one stretch of a worker between two points where it can be suspended, or less; any
    worker may make any move it is ready for at any time. */
module Downloading {
  import opened Bytes
  import opened Chunking

  const MAX_RETRIES: nat := 3
  const MAX_WORKERS: nat := 8

  datatype Status = Pending | Downloading | Completed | Failed

  /** got is bytes_downloaded. */
  datatype Chunk = Chunk(range: Range, got: nat, status: Status)

  /** Streaming writes the next received byte at file position at; it is byte src of the remote
      file, and the body ends before byte upto. */
  datatype Worker =
    | Idle
    | Trying(chunk: nat, retries: nat)
    | Streaming(chunk: nat, retries: nat, at: nat, src: nat, upto: nat)
    | Finishing
    | Exited

  datatype Session = Session(file: ByteString, chunks: seq<Chunk>, queue: seq<nat>, unfinished: int,
        workers: seq<Worker>)

  datatype Move =
    | Take(w: nat)
    | Leave(w: nat)
    | Connect(w: nat, honoured: bool)
    | Receive(w: nat, n: nat)
    | Finish(w: nat)
    | Fail(w: nat)
    | Requeue(w: nat)
    | Done(w: nat)

  ghost function Begin(file: ByteString, ranges: seq<Range>): Session {
    Session(file,
            seq(|ranges|, i requires 0 <= i < |ranges| => Chunk(ranges[i], 0, Pending)),
            seq(|ranges|, i => i),
            |ranges|,
            seq(if |ranges| <= MAX_WORKERS then |ranges| else MAX_WORKERS, i => Idle))
  }

  /** queue.join() returns. */
  ghost predicate Joined(s: Session) {
    s.unfinished == 0
  }

  // ---------- The moves ----------

  ghost predicate Holds(wk: Worker) {
    wk.Trying? || wk.Streaming?
  }

  /** Holding a chunk, or having dealt with one but not yet reported it done. */
  ghost predicate Busy(wk: Worker) {
    Holds(wk) || wk.Finishing?
  }

  ghost predicate WellFormed(s: Session) {
    && (forall i :: 0 <= i < |s.queue| ==> s.queue[i] < |s.chunks|)
    && (forall w :: 0 <= w < |s.workers| && Holds(s.workers[w]) ==> s.workers[w].chunk < |s.chunks|)
  }

  /** The Range header of the next attempt names a nonempty interval; an empty one is ignored by the
      server or answered with an error, but never honoured. */
  ghost predicate AsksForBytes(chunk: Chunk) {
    chunk.range.start + chunk.got <= chunk.range.end
  }

  /** The remote file is needed to know when a body has ended. */
  ghost predicate Ready(s: Session, m: Move, remote: ByteString)
    requires WellFormed(s)
  {
    m.w < |s.workers| &&
    var wk := s.workers[m.w];
    match m
    case Take(_) => wk.Idle? && s.queue != []
    case Leave(_) => wk.Idle? && s.queue == []
    case Connect(_, honoured) =>
      wk.Trying? && wk.retries < MAX_RETRIES && (honoured ==> AsksForBytes(s.chunks[wk.chunk]))
    case Receive(_, n) => wk.Streaming? && wk.src + n <= wk.upto && wk.upto <= |remote| && wk.at <= |s.file|
    case Finish(_) => wk.Streaming? && wk.src == wk.upto
    case Fail(_) => Holds(wk) && wk.retries < MAX_RETRIES
    case Requeue(_) => wk.Trying? && wk.retries >= MAX_RETRIES
    case Done(_) => wk.Finishing?
  }

  function WriteAt(file: ByteString, at: nat, data: ByteString): ByteString
    requires at <= |file|
  {
    file[..at] + data + (if at + |data| <= |file| then file[at + |data|..] else [])
  }

  ghost function SetWorker(s: Session, w: nat, wk: Worker): Session
    requires w < |s.workers|
  {
    s.(workers := s.workers[w := wk])
  }

  ghost function SetChunk(s: Session, c: nat, got: nat, status: Status): Session
    requires c < |s.chunks|
  {
    s.(chunks := s.chunks[c := s.chunks[c].(got := got, status := status)])
  }

  /** A block of data is written and counted. */
  ghost function Received(s: Session, w: nat, data: ByteString): Session
    requires w < |s.workers| && s.workers[w].Streaming?
    requires s.workers[w].chunk < |s.chunks| && s.workers[w].at <= |s.file|
  {
    var wk, n := s.workers[w], |data|;
    s.(file := WriteAt(s.file, wk.at, data),
       chunks := s.chunks[wk.chunk := s.chunks[wk.chunk].(got := s.chunks[wk.chunk].got + n)],
       workers := s.workers[w := wk.(at := wk.at + n, src := wk.src + n)])
  }

  ghost function Next(s: Session, m: Move, remote: ByteString): Session
    requires WellFormed(s) && Ready(s, m, remote)
  {
    var wk := s.workers[m.w];
    match m
    case Take(w) => SetWorker(s.(queue := s.queue[1..]), w, Trying(s.queue[0], 0))
    case Leave(w) => SetWorker(s, w, Exited)
    case Connect(w, honoured) =>
      var chunk := s.chunks[wk.chunk];
      var at := chunk.range.start + chunk.got;
      var body := if honoured then Streaming(wk.chunk, wk.retries, at, at, chunk.range.end + 1)
                  else Streaming(wk.chunk, wk.retries, at, 0, |remote|);
      SetWorker(SetChunk(s, wk.chunk, chunk.got, Downloading), w, body)
    case Receive(w, n) => Received(s, w, remote[wk.src..wk.src + n])
    case Finish(w) => SetWorker(SetChunk(s, wk.chunk, s.chunks[wk.chunk].got, Completed), w, Finishing)
    case Fail(w) =>
      SetWorker(SetChunk(s, wk.chunk, s.chunks[wk.chunk].got, Failed), w, Trying(wk.chunk, wk.retries + 1))
    case Requeue(w) =>
      var reset := SetChunk(s, wk.chunk, 0, Pending);
      SetWorker(reset.(queue := s.queue + [wk.chunk], unfinished := s.unfinished + 1), w, Finishing)
    case Done(w) => SetWorker(s.(unfinished := s.unfinished - 1), w, Idle)
  }

  ghost predicate Moves(s: Session, moves: seq<Move>, t: Session, remote: ByteString)
    decreases |moves|
  {
    if moves == [] then s == t
    else WellFormed(s) && Ready(s, moves[0], remote) && Moves(Next(s, moves[0], remote), moves[1..], t, remote)
  }

  // ---------- The queue protocol ----------

  ghost predicate HeldBy(s: Session, c: nat, w: nat)
    requires w < |s.workers|
  {
    Holds(s.workers[w]) && s.workers[w].chunk == c
  }

  ghost predicate Held(s: Session, c: nat) {
    exists w :: 0 <= w < |s.workers| && HeldBy(s, c, w)
  }

  ghost function BusyCount(workers: seq<Worker>): nat {
    if workers == [] then 0
    else BusyCount(workers[..|workers| - 1]) + (if Busy(workers[|workers| - 1]) then 1 else 0)
  }

  lemma {:induction false} BusyCountUpdate(workers: seq<Worker>, w: nat, wk: Worker)
    requires w < |workers|
    ensures BusyCount(workers[w := wk]) + (if Busy(workers[w]) then 1 else 0)
      == BusyCount(workers) + (if Busy(wk) then 1 else 0)
    decreases |workers|
  {
    var last := |workers| - 1;
    if w == last {
      assert workers[w := wk][..last] == workers[..last];
    } else {
      BusyCountUpdate(workers[..last], w, wk);
      assert workers[w := wk][..last] == workers[..last][w := wk];
    }
  }

  /** Each chunk is in exactly one place: once in the queue, with one worker, or COMPLETED. */
  ghost predicate OnePlaceEach(s: Session) {
    && (forall i, j :: 0 <= i < j < |s.queue| ==> s.queue[i] != s.queue[j])
    && (forall v, w :: 0 <= v < w < |s.workers| && Holds(s.workers[v]) && Holds(s.workers[w])
          ==> s.workers[v].chunk != s.workers[w].chunk)
    && (forall w :: 0 <= w < |s.workers| && Holds(s.workers[w]) ==> s.workers[w].chunk !in s.queue)
    && (forall c :: 0 <= c < |s.chunks| ==>
          (s.chunks[c].status.Completed? <==> c !in s.queue && !Held(s, c)))
  }

  ghost predicate Live(s: Session) {
    s.queue != [] ==> exists w :: 0 <= w < |s.workers| && !s.workers[w].Exited?
  }

  ghost predicate QueueInv(s: Session) {
    && WellFormed(s) && OnePlaceEach(s) && Live(s)
    && s.unfinished == |s.queue| + BusyCount(s.workers)
  }

  lemma {:induction false} BeginQueue(file: ByteString, ranges: seq<Range>)
    ensures QueueInv(Begin(file, ranges))
  {
    var s := Begin(file, ranges);
    NobodyBusy(s.workers);
    assert s.queue != [] ==> !s.workers[0].Exited?;
    forall c | 0 <= c < |s.chunks|
      ensures c in s.queue
    {
      assert s.queue[c] == c;
    }
  }

  lemma {:induction false} NobodyBusy(workers: seq<Worker>)
    requires forall w :: 0 <= w < |workers| ==> !Busy(workers[w])
    ensures BusyCount(workers) == 0
    decreases |workers|
  {
    if workers != [] {
      NobodyBusy(workers[..|workers| - 1]);
    }
  }

  ghost predicate OneHolderEach(s: Session) {
    forall v, w :: 0 <= v < w < |s.workers| && Holds(s.workers[v]) && Holds(s.workers[w])
      ==> s.workers[v].chunk != s.workers[w].chunk
  }

  /** Who holds what after one worker changes. */
  lemma {:induction false} HeldUpdate(s: Session, t: Session, w: nat, wk: Worker, c: nat)
    requires OneHolderEach(s) && w < |s.workers| && t.workers == s.workers[w := wk]
    ensures Held(t, c) <==> (Holds(wk) && wk.chunk == c) || (Held(s, c) && !HeldBy(s, c, w))
  {
    if Held(t, c) {
      var v :| 0 <= v < |t.workers| && HeldBy(t, c, v);
      if v != w {
        assert HeldBy(s, c, v);
      }
    }
    if Holds(wk) && wk.chunk == c {
      assert HeldBy(t, c, w);
    }
    if Held(s, c) && !HeldBy(s, c, w) {
      var v :| 0 <= v < |s.workers| && HeldBy(s, c, v);
      assert HeldBy(t, c, v);
    }
  }

  lemma {:induction false} TakeKeepsPlaces(s: Session, w: nat, remote: ByteString)
    requires QueueInv(s) && Ready(s, Take(w), remote)
    ensures OnePlaceEach(Next(s, Take(w), remote)) && WellFormed(Next(s, Take(w), remote))
  {
    var t := Next(s, Take(w), remote);
    assert s.queue == [s.queue[0]] + t.queue;
    assert forall c :: c in t.queue <==> c in s.queue && c != s.queue[0];
    forall c | 0 <= c < |t.chunks|
      ensures t.chunks[c].status.Completed? <==> c !in t.queue && !Held(t, c)
    {
      HeldUpdate(s, t, w, t.workers[w], c);
    }
  }

  /** A worker that goes on holding its chunk. */
  lemma {:induction false} KeepingKeepsPlaces(s: Session, t: Session, w: nat, c: nat)
    requires QueueInv(s) && w < |s.workers| && HeldBy(s, c, w)
    requires |t.workers| == |s.workers| && t.workers == s.workers[w := t.workers[w]] && HeldBy(t, c, w)
    requires t.queue == s.queue && |t.chunks| == |s.chunks| && c < |s.chunks|
    requires t.chunks == s.chunks[c := t.chunks[c]] && !t.chunks[c].status.Completed?
    ensures OnePlaceEach(t) && WellFormed(t)
  {
    forall k | 0 <= k < |t.chunks|
      ensures t.chunks[k].status.Completed? <==> k !in t.queue && !Held(t, k)
    {
      HeldUpdate(s, t, w, t.workers[w], k);
    }
  }

  lemma {:induction false} CompletingKeepsPlaces(s: Session, t: Session, w: nat, c: nat)
    requires QueueInv(s) && w < |s.workers| && HeldBy(s, c, w) && c < |s.chunks| == |t.chunks|
    requires t.workers == s.workers[w := Finishing] && t.queue == s.queue
    requires t.chunks == s.chunks[c := t.chunks[c]] && t.chunks[c].status.Completed?
    ensures OnePlaceEach(t) && WellFormed(t)
  {
    forall k | 0 <= k < |t.chunks|
      ensures t.chunks[k].status.Completed? <==> k !in t.queue && !Held(t, k)
    {
      ReleasedUpdate(s, t, w, c, k);
    }
  }

  lemma {:induction false} RequeueingKeepsPlaces(s: Session, t: Session, w: nat, c: nat)
    requires QueueInv(s) && w < |s.workers| && HeldBy(s, c, w) && c < |s.chunks| == |t.chunks|
    requires t.workers == s.workers[w := Finishing] && t.queue == s.queue + [c]
    requires t.chunks == s.chunks[c := t.chunks[c]] && !t.chunks[c].status.Completed?
    ensures OnePlaceEach(t) && WellFormed(t)
  {
    assert forall k :: k in t.queue <==> k in s.queue || k == c;
    forall k | 0 <= k < |t.chunks|
      ensures t.chunks[k].status.Completed? <==> k !in t.queue && !Held(t, k)
    {
      ReleasedUpdate(s, t, w, c, k);
    }
  }

  lemma {:induction false} ReleasedUpdate(s: Session, t: Session, w: nat, c: nat, k: nat)
    requires OneHolderEach(s) && w < |s.workers| && HeldBy(s, c, w) && t.workers == s.workers[w := Finishing]
    ensures Held(t, k) <==> k != c && Held(s, k)
  {
    HeldUpdate(s, t, w, Finishing, k);
  }

  lemma {:induction false} IdlingKeepsPlaces(s: Session, t: Session, w: nat)
    requires QueueInv(s) && w < |s.workers| && !Holds(s.workers[w])
    requires |t.workers| == |s.workers| && t.workers == s.workers[w := t.workers[w]] && !Holds(t.workers[w])
    requires t.queue == s.queue && t.chunks == s.chunks
    ensures OnePlaceEach(t) && WellFormed(t)
  {
    forall k | 0 <= k < |t.chunks|
      ensures t.chunks[k].status.Completed? <==> k !in t.queue && !Held(t, k)
    {
      HeldUpdate(s, t, w, t.workers[w], k);
    }
  }

  lemma {:induction false} NextKeepsPlaces(s: Session, m: Move, remote: ByteString)
    requires QueueInv(s) && Ready(s, m, remote)
    ensures OnePlaceEach(Next(s, m, remote)) && WellFormed(Next(s, m, remote))
  {
    var t, wk := Next(s, m, remote), s.workers[m.w];
    if Holds(wk) {
      assert HeldBy(s, wk.chunk, m.w) && !s.chunks[wk.chunk].status.Completed?;
    }
    match m
    case Take(w) => TakeKeepsPlaces(s, w, remote);
    case Connect(w, _) => KeepingKeepsPlaces(s, t, w, wk.chunk);
    case Receive(w, _) => KeepingKeepsPlaces(s, t, w, wk.chunk);
    case Fail(w) => KeepingKeepsPlaces(s, t, w, wk.chunk);
    case Finish(w) => CompletingKeepsPlaces(s, t, w, wk.chunk);
    case Requeue(w) => RequeueingKeepsPlaces(s, t, w, wk.chunk);
    case Leave(w) => IdlingKeepsPlaces(s, t, w);
    case Done(w) => IdlingKeepsPlaces(s, t, w);
  }

  lemma {:induction false} NextKeepsQueue(s: Session, m: Move, remote: ByteString)
    requires QueueInv(s) && Ready(s, m, remote)
    ensures QueueInv(Next(s, m, remote))
  {
    var t := Next(s, m, remote);
    NextKeepsPlaces(s, m, remote);
    BusyCountUpdate(s.workers, m.w, t.workers[m.w]);
    assert m.Leave? || !t.workers[m.w].Exited?;
  }

  /** In every reachable state of the download: each chunk is in exactly one place, the unfinished
      count is the queue plus the busy workers, and a nonempty queue has a worker left to serve it. */
  lemma {:induction false} MovesKeepQueue(s: Session, moves: seq<Move>, t: Session, remote: ByteString)
    requires QueueInv(s) && Moves(s, moves, t, remote)
    ensures QueueInv(t) && |t.chunks| == |s.chunks|
    decreases |moves|
  {
    if moves == [] {
    } else {
      NextKeepsQueue(s, moves[0], remote);
      MovesKeepQueue(Next(s, moves[0], remote), moves[1..], t, remote);
    }
  }

  lemma ReceivedIsNext(s: Session, w: nat, data: ByteString, remote: ByteString)
    requires WellFormed(s) && Ready(s, Receive(w, |data|), remote)
    requires data == remote[s.workers[w].src..s.workers[w].src + |data|]
    ensures Next(s, Receive(w, |data|), remote) == Received(s, w, data)
  {
  }

  // ---------- The session object: one method per stretch of a worker ----------

  class DownloadSession {
    var file: ByteString
    var chunks: seq<Chunk>
    var queue: seq<nat>
    var unfinished: int
    var workers: seq<Worker>

    ghost function Model(): Session
      reads this
    {
      Session(file, chunks, queue, unfinished, workers)
    }

    /** Fills the queue and spawns the workers. */
    constructor Start(file: ByteString, ranges: seq<Range>)
      ensures Model() == Begin(file, ranges) && QueueInv(Model())
    {
      this.file := file;
      chunks, queue, unfinished, workers := [], [], 0, [];
      new;
      for i := 0 to |ranges|
        invariant this.file == file && workers == [] && unfinished == i
        invariant chunks == Begin(file, ranges[..i]).chunks
        invariant queue == Begin(file, ranges[..i]).queue
      {
        chunks := chunks + [Chunk(ranges[i], 0, Pending)];
        queue := queue + [i];
        unfinished := unfinished + 1;
      }
      assert ranges[..|ranges|] == ranges;
      var count := if |chunks| <= MAX_WORKERS then |chunks| else MAX_WORKERS;
      workers := seq(count, _ => Idle);
      BeginQueue(file, ranges);
    }

    /** The head of the worker loop: leave if the queue is empty, else take its first chunk. */
    method NextChunk(w: nat, ghost remote: ByteString)
      requires QueueInv(Model()) && w < |workers| && workers[w].Idle?
      modifies this`queue, this`workers
      ensures Model() == Next(old(Model()), if old(queue) == [] then Leave(w) else Take(w), remote)
      ensures QueueInv(Model())
    {
      NextKeepsQueue(Model(), if queue == [] then Leave(w) else Take(w), remote);
      if queue == [] {
        workers := workers[w := Exited];
      } else {
        workers := workers[w := Trying(queue[0], 0)];
        queue := queue[1..];
      }
    }

    method OpenStream(w: nat, honoured: bool, remoteSize: nat, ghost remote: ByteString)
      requires QueueInv(Model()) && Ready(Model(), Connect(w, honoured), remote) && remoteSize == |remote|
      modifies this`chunks, this`workers
      ensures Model() == Next(old(Model()), Connect(w, honoured), remote)
      ensures QueueInv(Model())
    {
      NextKeepsQueue(Model(), Connect(w, honoured), remote);
      var c, retries := workers[w].chunk, workers[w].retries;
      var range, at := chunks[c].range, chunks[c].range.start + chunks[c].got;
      chunks := chunks[c := chunks[c].(status := Downloading)];
      workers := workers[w := if honoured then Streaming(c, retries, at, at, range.end + 1)
                              else Streaming(c, retries, at, 0, remoteSize)];
    }

    method WriteBlock(w: nat, data: ByteString, ghost remote: ByteString)
      requires QueueInv(Model()) && Ready(Model(), Receive(w, |data|), remote)
      requires data == remote[workers[w].src..workers[w].src + |data|]
      modifies this`file, this`chunks, this`workers
      ensures Model() == Next(old(Model()), Receive(w, |data|), remote)
      ensures QueueInv(Model())
    {
      ghost var s := Model();
      NextKeepsQueue(s, Receive(w, |data|), remote);
      ReceivedIsNext(s, w, data, remote);
      var wk := workers[w];
      file := WriteAt(file, wk.at, data);
      chunks := chunks[wk.chunk := chunks[wk.chunk].(got := chunks[wk.chunk].got + |data|)];
      workers := workers[w := wk.(at := wk.at + |data|, src := wk.src + |data|)];
      assert Model() == Received(s, w, data);
    }

    method Succeed(w: nat, ghost remote: ByteString)
      requires QueueInv(Model()) && Ready(Model(), Finish(w), remote)
      modifies this`chunks, this`workers
      ensures Model() == Next(old(Model()), Finish(w), remote)
      ensures QueueInv(Model())
    {
      NextKeepsQueue(Model(), Finish(w), remote);
      var c := workers[w].chunk;
      chunks := chunks[c := chunks[c].(status := Completed)];
      workers := workers[w := Finishing];
    }

    method CatchError(w: nat, ghost remote: ByteString)
      requires QueueInv(Model()) && Ready(Model(), Fail(w), remote)
      modifies this`chunks, this`workers
      ensures Model() == Next(old(Model()), Fail(w), remote)
      ensures QueueInv(Model())
    {
      NextKeepsQueue(Model(), Fail(w), remote);
      var c := workers[w].chunk;
      chunks := chunks[c := chunks[c].(status := Failed)];
      workers := workers[w := Trying(c, workers[w].retries + 1)];
    }

    method Resteer(w: nat, ghost remote: ByteString)
      requires QueueInv(Model()) && Ready(Model(), Requeue(w), remote)
      modifies this`chunks, this`queue, this`unfinished, this`workers
      ensures Model() == Next(old(Model()), Requeue(w), remote)
      ensures QueueInv(Model())
    {
      NextKeepsQueue(Model(), Requeue(w), remote);
      var c := workers[w].chunk;
      chunks := chunks[c := chunks[c].(status := Pending, got := 0)];
      queue := queue + [c];
      unfinished := unfinished + 1;
      workers := workers[w := Finishing];
    }

    /** task_done never finds the count at zero. */
    method TaskDone(w: nat, ghost remote: ByteString)
      requires QueueInv(Model()) && Ready(Model(), Done(w), remote)
      modifies this`unfinished, this`workers
      ensures Model() == Next(old(Model()), Done(w), remote)
      ensures old(unfinished) > 0 && QueueInv(Model())
    {
      NextKeepsQueue(Model(), Done(w), remote);
      BusyWorkersCount(workers, w);
      unfinished := unfinished - 1;
      workers := workers[w := Idle];
    }
  }

  lemma {:induction false} BusyWorkersCount(workers: seq<Worker>, w: nat)
    requires w < |workers| && Busy(workers[w])
    ensures BusyCount(workers) >= 1
    decreases |workers|
  {
    if w < |workers| - 1 {
      BusyWorkersCount(workers[..|workers| - 1], w);
    }
  }

  lemma {:induction false} SomeoneBusy(workers: seq<Worker>) returns (w: nat)
    requires BusyCount(workers) >= 1
    ensures w < |workers| && Busy(workers[w])
    decreases |workers|
  {
    if Busy(workers[|workers| - 1]) {
      w := |workers| - 1;
    } else {
      w := SomeoneBusy(workers[..|workers| - 1]);
    }
  }

  /** join() returns exactly when every chunk is COMPLETED and every completion was reported; as
      long as it has not, some worker is busy or is about to take a queued chunk; so workers never
      all leave with work behind them. */
  lemma {:induction false} JoinMeansCompleted(s: Session)
    requires QueueInv(s)
    ensures Joined(s) ==> forall c :: 0 <= c < |s.chunks| ==> s.chunks[c].status.Completed?
    ensures Joined(s) <==> s.queue == [] && forall w :: 0 <= w < |s.workers| ==> !Busy(s.workers[w])
    ensures !Joined(s) ==>
      exists w :: 0 <= w < |s.workers| && (Busy(s.workers[w]) || (s.workers[w].Idle? && s.queue != []))
    ensures (forall w :: 0 <= w < |s.workers| ==> s.workers[w].Exited?) ==> Joined(s)
  {
    if Joined(s) {
      forall w | 0 <= w < |s.workers|
        ensures !Busy(s.workers[w])
      {
        if Busy(s.workers[w]) {
          BusyWorkersCount(s.workers, w);
        }
      }
    } else if BusyCount(s.workers) >= 1 {
      var w := SomeoneBusy(s.workers);
    } else {
      var w :| 0 <= w < |s.workers| && !s.workers[w].Exited?;
      if Busy(s.workers[w]) {
        BusyWorkersCount(s.workers, w);
      }
    }
  }
}
