/** What a run of the download leaves behind: the order of the queue, what a worker knows of its own
    attempts, and what its requests ask for. */
module DownloadRuns {
  import opened Bytes
  import opened Chunking
  import opened Downloading
  import opened Assembly

  // ---------- The queue is served in order ----------

  /** The chunks the workers set out with, in the order of their takes. */
  ghost function Taken(s: Session, moves: seq<Move>, remote: ByteString): seq<nat>
    requires Possible(s, moves, remote)
    decreases |moves|
  {
    if moves == [] then []
    else
      var t := Next(s, moves[0], remote);
      (if moves[0].Take? then [t.workers[moves[0].w].chunk] else []) + Taken(t, moves[1..], remote)
  }

  /** The chunks given up, in order. */
  ghost function GivenUp(s: Session, moves: seq<Move>, remote: ByteString): seq<nat>
    requires Possible(s, moves, remote)
    decreases |moves|
  {
    if moves == [] then []
    else
      var t := Next(s, moves[0], remote);
      (if moves[0].Requeue? then [s.workers[moves[0].w].chunk] else []) + GivenUp(t, moves[1..], remote)
  }

  lemma {:induction false} TakenFromFront(q: seq<nat>, rest: seq<nat>, given: seq<nat>, taken: seq<nat>, end: seq<nat>)
    requires q != [] && rest == q[1..] && rest + given == taken + end
    ensures q + given == [q[0]] + taken + end
  {
    assert q + given == [q[0]] + (rest + given);
  }

  lemma {:induction false} PutAtEnd(q: seq<nat>, longer: seq<nat>, c: nat, given: seq<nat>, taken: seq<nat>,
        end: seq<nat>)
    requires longer == q + [c] && longer + given == taken + end
    ensures q + ([c] + given) == taken + end
  {
    assert q + ([c] + given) == longer + given;
  }

  /** First in, first out: what was queued and what was given up since, in that order, is what was taken
      and what is still queued. */
  lemma {:induction false} QueueIsFifo(s: Session, moves: seq<Move>, t: Session, remote: ByteString)
    requires Moves(s, moves, t, remote) && Possible(s, moves, remote)
    ensures s.queue + GivenUp(s, moves, remote) == Taken(s, moves, remote) + t.queue
    decreases |moves|
  {
    var none: seq<nat> := [];
    if moves == [] {
      assert s.queue + none == none + t.queue;
    } else {
      var u := Next(s, moves[0], remote);
      var given, taken := GivenUp(u, moves[1..], remote), Taken(u, moves[1..], remote);
      QueueIsFifo(u, moves[1..], t, remote);
      assert none + given == given && none + taken == taken;
      if moves[0].Take? {
        TakenFromFront(s.queue, u.queue, given, taken, t.queue);
      } else if moves[0].Requeue? {
        PutAtEnd(s.queue, u.queue, s.workers[moves[0].w].chunk, given, taken, t.queue);
      }
    }
  }

  // ---------- Status and bytes of a chunk ----------

  /** The status says where a chunk is, and what waits in the queue or for a first attempt has no bytes. */
  ghost predicate StatusOf(chunk: Chunk, wk: Worker)
    requires Holds(wk)
  {
    match wk
    case Streaming(_, _, _, _, _) => chunk.status.Downloading?
    case Trying(_, retries) =>
      if retries == 0 then chunk.status.Pending? && chunk.got == 0 else chunk.status.Failed?
  }

  ghost predicate StatusInv(s: Session)
    requires WellFormed(s)
  {
    && (forall i :: 0 <= i < |s.queue| ==> s.chunks[s.queue[i]].status.Pending? && s.chunks[s.queue[i]].got == 0)
    && (forall w :: 0 <= w < |s.workers| && Holds(s.workers[w]) ==>
          StatusOf(s.chunks[s.workers[w].chunk], s.workers[w]))
  }

  /** The queue keeps its fresh chunks whatever becomes of a chunk that a worker holds. */
  lemma {:induction false} QueueStaysFresh(s: Session, m: Move, remote: ByteString)
    requires QueueInv(s) && StatusInv(s) && Ready(s, m, remote) && WellFormed(Next(s, m, remote))
    ensures var t := Next(s, m, remote);
      forall i :: 0 <= i < |t.queue| ==> t.chunks[t.queue[i]].status.Pending? && t.chunks[t.queue[i]].got == 0
  {
    var t, wk := Next(s, m, remote), s.workers[m.w];
    forall i | 0 <= i < |t.queue|
      ensures t.chunks[t.queue[i]].status.Pending? && t.chunks[t.queue[i]].got == 0
    {
      if !m.Requeue? || i < |s.queue| {
        assert t.queue[i] == s.queue[if m.Take? then i + 1 else i];
        assert Holds(wk) ==> wk.chunk != t.queue[i];
      }
    }
  }

  lemma {:induction false} NextKeepsStatus(s: Session, m: Move, remote: ByteString)
    requires QueueInv(s) && StatusInv(s) && Ready(s, m, remote)
    ensures QueueInv(Next(s, m, remote)) && StatusInv(Next(s, m, remote))
  {
    var t, wk := Next(s, m, remote), s.workers[m.w];
    NextKeepsQueue(s, m, remote);
    QueueStaysFresh(s, m, remote);
    forall v | 0 <= v < |t.workers| && Holds(t.workers[v])
      ensures StatusOf(t.chunks[t.workers[v].chunk], t.workers[v])
    {
      if v != m.w {
        assert t.workers[v] == s.workers[v];
        assert Holds(wk) ==> s.workers[v].chunk != wk.chunk;
      }
    }
  }

  /** In every reachable state. */
  lemma {:induction false} MovesKeepStatus(s: Session, moves: seq<Move>, t: Session, remote: ByteString)
    requires QueueInv(s) && StatusInv(s) && Moves(s, moves, t, remote)
    ensures QueueInv(t) && StatusInv(t)
    decreases |moves|
  {
    if moves != [] {
      NextKeepsStatus(s, moves[0], remote);
      MovesKeepStatus(Next(s, moves[0], remote), moves[1..], t, remote);
    }
  }

  lemma {:induction false} MovesKeepRanges(s: Session, moves: seq<Move>, t: Session, ranges: seq<Range>,
        remote: ByteString)
    requires Ranges(s, ranges) && Moves(s, moves, t, remote)
    ensures Ranges(t, ranges) && |t.workers| == |s.workers|
    decreases |moves|
  {
    if moves != [] {
      MovesKeepRanges(Next(s, moves[0], remote), moves[1..], t, ranges, remote);
    }
  }

  lemma {:induction false} FirstStream(t: Session, ranges: seq<Range>, w: nat, honoured: bool, remote: ByteString)
    requires WellFormed(t) && StatusInv(t) && Ranges(t, ranges)
    requires Ready(t, Connect(w, honoured), remote) && t.workers[w].retries == 0
    ensures var range, u := ranges[t.workers[w].chunk], Next(t, Connect(w, honoured), remote).workers[w];
      && u.at == range.start && (honoured ==> u.src == range.start && u.upto == range.end + 1)
      && (range.start == 0 ==> Usable(t, Connect(w, honoured)) && u.src == u.at)
  {
    assert StatusOf(t.chunks[t.workers[w].chunk], t.workers[w]);
  }

  /** At most eight workers run, and no more than there are chunks; whatever is queued has no bytes; and
      the first attempt after a take asks for the whole range of its chunk, so that for the chunk at byte 0
      any response is usable, also after the chunk was given up with bytes it had. */
  lemma {:induction false} FirstAttemptAsksForEverything(file: ByteString, ranges: seq<Range>, moves: seq<Move>,
        t: Session, remote: ByteString, w: nat, honoured: bool)
    requires Moves(Begin(file, ranges), moves, t, remote) && WellFormed(t)
    requires Ready(t, Connect(w, honoured), remote) && t.workers[w].retries == 0
    ensures |t.workers| <= 8 && |t.workers| <= |ranges|
    ensures forall i :: 0 <= i < |t.queue| ==> t.chunks[t.queue[i]].got == 0 && t.chunks[t.queue[i]].status == Pending
    ensures t.workers[w].chunk < |ranges|
    ensures var range, u := ranges[t.workers[w].chunk], Next(t, Connect(w, honoured), remote).workers[w];
      && u.at == range.start && (honoured ==> u.src == range.start && u.upto == range.end + 1)
      && (range.start == 0 ==> Usable(t, Connect(w, honoured)) && u.src == u.at)
  {
    BeginQueue(file, ranges);
    MovesKeepStatus(Begin(file, ranges), moves, t, remote);
    MovesKeepRanges(Begin(file, ranges), moves, t, ranges, remote);
    FirstStream(t, ranges, w, honoured, remote);
  }

  // ---------- What happened since a worker's last take ----------

  /** Failures and bytes since the last take. */
  datatype Past = Past(fails: nat, bytes: nat)

  function Remember(p: Past, m: Move): Past {
    match m
    case Take(_) => Past(0, 0)
    case Fail(_) => p.(fails := p.fails + 1)
    case Receive(_, n) => p.(bytes := p.bytes + n)
    case _ => p
  }

  function RememberAll(pasts: seq<Past>, moves: seq<Move>): seq<Past>
    requires forall i :: 0 <= i < |moves| ==> moves[i].w < |pasts|
    decreases |moves|
  {
    if moves == [] then pasts
    else RememberAll(pasts[moves[0].w := Remember(pasts[moves[0].w], moves[0])], moves[1..])
  }

  /** A worker's count of retries is that of its failures, at most three, and the bytes counted for its
      chunk are those it received itself. */
  ghost predicate Remembered(s: Session, pasts: seq<Past>)
    requires WellFormed(s)
  {
    && |pasts| == |s.workers|
    && (forall w :: 0 <= w < |s.workers| && Holds(s.workers[w]) ==>
          && s.workers[w].retries == pasts[w].fails <= 3
          && s.chunks[s.workers[w].chunk].got == pasts[w].bytes)
  }

  lemma {:induction false} NextIsRemembered(s: Session, m: Move, remote: ByteString, pasts: seq<Past>)
    requires QueueInv(s) && StatusInv(s) && Remembered(s, pasts) && Ready(s, m, remote)
    requires WellFormed(Next(s, m, remote))
    ensures Remembered(Next(s, m, remote), pasts[m.w := Remember(pasts[m.w], m)])
  {
    var t, wk := Next(s, m, remote), s.workers[m.w];
    var after := pasts[m.w := Remember(pasts[m.w], m)];
    forall v | 0 <= v < |t.workers| && Holds(t.workers[v])
      ensures t.workers[v].retries == after[v].fails <= 3 && t.chunks[t.workers[v].chunk].got == after[v].bytes
    {
      if v != m.w {
        assert t.workers[v] == s.workers[v];
        assert Holds(wk) ==> s.workers[v].chunk != wk.chunk;
      }
    }
  }

  lemma {:induction false} MovesAreRemembered(s: Session, moves: seq<Move>, t: Session, remote: ByteString,
        pasts: seq<Past>)
    requires QueueInv(s) && StatusInv(s) && Remembered(s, pasts) && Moves(s, moves, t, remote)
    ensures forall i :: 0 <= i < |moves| ==> moves[i].w < |pasts|
    ensures QueueInv(t) && Remembered(t, RememberAll(pasts, moves))
    decreases |moves|
  {
    if moves != [] {
      var u, after := Next(s, moves[0], remote), pasts[moves[0].w := Remember(pasts[moves[0].w], moves[0])];
      NextKeepsStatus(s, moves[0], remote);
      NextIsRemembered(s, moves[0], remote, pasts);
      MovesAreRemembered(u, moves[1..], t, remote, after);
      forall i | 0 <= i < |moves|
        ensures moves[i].w < |pasts|
      {
        if i > 0 {
          assert moves[1..][i - 1] == moves[i];
        }
      }
    }
  }

  /** In every reachable state: an attempt resumes behind exactly the bytes that its worker received since
      it took the chunk, whatever failed in between, and a chunk is given up after exactly three failures. */
  lemma {:induction false} AttemptsSinceTheTake(file: ByteString, ranges: seq<Range>, moves: seq<Move>, t: Session,
        remote: ByteString, nothing: seq<Past>)
    requires Moves(Begin(file, ranges), moves, t, remote)
    requires nothing == seq(|Begin(file, ranges).workers|, i => Past(0, 0))
    ensures WellFormed(t) && |t.workers| == |nothing|
    ensures forall i :: 0 <= i < |moves| ==> moves[i].w < |nothing|
    ensures var pasts := RememberAll(nothing, moves);
      |pasts| == |nothing| && forall w :: 0 <= w < |t.workers| && Holds(t.workers[w]) ==>
        && t.chunks[t.workers[w].chunk].got == pasts[w].bytes && pasts[w].fails <= 3
        && (Ready(t, Requeue(w), remote) <==> t.workers[w].Trying? && pasts[w].fails == 3)
  {
    BeginQueue(file, ranges);
    MovesKeepRanges(Begin(file, ranges), moves, t, ranges, remote);
    MovesAreRemembered(Begin(file, ranges), moves, t, remote, nothing);
  }
}
