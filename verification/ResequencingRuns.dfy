/** Lossless exactness of the Rust resequencer, over whole runs with ticks. */
module ResequencingRuns {
  import opened Reorder
  import opened Resequencing
  import R = ReceiverRuns

  ghost function Fresh<T>(capacity: nat): State<T> {
    State(Core(0, map[], []), BASELINE_TIMEOUT, capacity)
  }

  ghost predicate Genuine<T>(ev: Event<T>, sent: seq<T>) {
    ev.Arrive? ==> ev.num < |sent| && ev.payload == sent[ev.num]
  }

  ghost predicate Arrives<T>(evs: seq<Event<T>>, k: nat) {
    exists i :: 0 <= i < |evs| && evs[i].Arrive? && evs[i].num == k
  }

  /** Neither a retuned timeout nor an event outside one timeout from the start. */
  ghost predicate InWindow<T>(ev: Event<T>, start: int, timeout: int) {
    !ev.Retune? && start <= ev.now <= start + timeout
  }

  /** An exact prefix of the sent list is delivered, and all that is held is genuine, ahead of the
      cursor and not older than the start. */
  ghost predicate OnTrack<T>(s: State<T>, sent: seq<T>, start: int) {
    Valid(s) && R.ExactPrefix(s.core, sent) && R.HeldSince(s.core, start)
  }

  /** The packets held are ahead of an awaited one, so they are fewer than were sent. */
  lemma {:induction false} HeldAreFewer<T>(c: Core<T>, sent: seq<T>)
    requires R.ExactPrefix(c, sent) && Ordered(c) && c.next !in c.buf && c.next < |sent|
    ensures |c.buf| < |sent|
  {
    R.IntervalSize(c.next + 1, |sent|, c.buf.Keys);
  }

  lemma {:induction false} StoreCovers<T>(c: Core<T>, num: nat, payload: T, now: int, sent: seq<T>, start: int)
    requires R.ExactPrefix(c, sent) && c.next <= num < |sent| && payload == sent[num]
    requires R.HeldSince(c, start) && start <= now
    ensures var d := Release(Store(c, num, payload, now));
      && R.ExactPrefix(d, sent) && R.HeldSince(d, start)
      && R.Covered(d, num) && forall k :: R.Covered(c, k) ==> R.Covered(d, k)
  {
    var stored := Store(c, num, payload, now);
    assert R.Covered(stored, num) && forall k :: R.Covered(c, k) ==> R.Covered(stored, k);
    R.ReleaseKeepsPrefix(stored, sent);
    ReleaseTakesRun(stored);
  }

  lemma {:induction false} PutStaysOnTrack<T>(s: State<T>, num: nat, payload: T, now: int, sent: seq<T>, start: int)
    requires OnTrack(s, sent, start) && num < |sent| <= s.capacity && payload == sent[num] && start <= now
    ensures var t := AfterPut(s, num, payload, now);
      && OnTrack(t, sent, start) && t.capacity == s.capacity && t.timeout == s.timeout
      && R.Covered(t.core, num) && forall k :: R.Covered(s.core, k) ==> R.Covered(t.core, k)
  {
    if s.core.next <= num {
      HeldAreFewer(s.core, sent);
      assert MakeRoom(s.core, s.capacity) == s.core;
      PutKeepsOrderIff(s, num, payload, now);
      StoreCovers(s.core, num, payload, now, sent, start);
    }
  }

  lemma {:induction false} RunStaysOnTrack<T>(s: State<T>, evs: seq<Event<T>>, sent: seq<T>, start: int)
    requires OnTrack(s, sent, start) && |sent| <= s.capacity
    requires forall i :: 0 <= i < |evs| ==> Genuine(evs[i], sent) && InWindow(evs[i], start, s.timeout)
    ensures OnTrack(Run(s, evs), sent, start)
    ensures forall k :: R.Covered(s.core, k) || Arrives(evs, k) ==> R.Covered(Run(s, evs).core, k)
    decreases |evs|
  {
    if evs != [] {
      var t := Step(s, evs[0]);
      match evs[0] {
        case Arrive(num, payload, now) => PutStaysOnTrack(s, num, payload, now, sent, start);
        case Tick(now) => TickExactly(s, now);
      }
      RunStaysOnTrack(t, evs[1..], sent, start);
      forall k | Arrives(evs, k)
        ensures R.Covered(Run(s, evs).core, k)
      {
        var i :| 0 <= i < |evs| && evs[i].Arrive? && evs[i].num == k;
        if i > 0 {
          assert evs[1..][i - 1] == evs[i];
          assert Arrives(evs[1..], k);
        }
      }
    }
  }

  /** If every packet of one sent list arrives at least once, in any order and with any duplicates, the
      cap has room for the list, and all of it and all ticks fall within one timeout of a start, then the
      callback has seen exactly the sent list and nothing is held: no tick jumps ahead too early. */
  lemma {:induction false} BurstWithinTimeoutIsExact<T>(s: State<T>, evs: seq<Event<T>>, sent: seq<T>, start: int)
    requires s.core == Core(0, map[], []) && |sent| <= s.capacity
    requires forall i :: 0 <= i < |evs| ==> Genuine(evs[i], sent) && InWindow(evs[i], start, s.timeout)
    requires forall k :: 0 <= k < |sent| ==> Arrives(evs, k)
    ensures var e := Run(s, evs);
      e.core.log == R.InSequence(sent) && e.core.next == |sent| && e.core.buf == map[]
  {
    RunStaysOnTrack(s, evs, sent, start);
    var e := Run(s, evs);
    assert e.core.next < |sent| ==> Arrives(evs, e.core.next) && R.Covered(e.core, e.core.next);
    assert e.core.next == |sent|;
    assert e.core.buf.Keys == {};
  }

  /** As it is shipped, one timeout is 40 milliseconds. */
  lemma {:induction false} FreshBurstIsExact<T>(capacity: nat, evs: seq<Event<T>>, sent: seq<T>, start: int)
    requires |sent| <= capacity
    requires forall i :: 0 <= i < |evs| ==> Genuine(evs[i], sent) && InWindow(evs[i], start, 40_000)
    requires forall k :: 0 <= k < |sent| ==> Arrives(evs, k)
    ensures Run(Fresh(capacity), evs).core.log == R.InSequence(sent)
  {
    BurstWithinTimeoutIsExact(Fresh(capacity), evs, sent, start);
  }

  /** And not one microsecond more: a packet that waits for another is handed over by a tick later than
      that, and the other is then late for good. */
  lemma {:induction false} LaterTickSkips<T>(capacity: nat, payload: T, other: T, start: int, now: int, later: int)
    requires capacity >= 1 && now > start + 40_000
    ensures Run(Fresh(capacity), [Arrive(1, payload, start), Tick(now), Arrive(0, other, later)]).core
      == Core(2, map[], [Packet(1, payload)])
  {
    var s := Fresh<T>(capacity);
    var evs := [Arrive(1, payload, start), Tick(now), Arrive(0, other, later)];
    assert evs[1..] == [Tick(now), Arrive(0, other, later)] && evs[1..][1..] == [Arrive(0, other, later)];
    assert evs[1..][1..][1..] == [];
    var item := Stored(payload, start);
    var held := map[1 := item];
    var t := Step(s, evs[0]);
    assert t.core == Core(0, held, []);
    assert 1 in held && Lowest(held) == 1;
    StrandedComesOut(0, 1, item, []);
    var u := Step(t, evs[1]);
    assert u.core == Core(2, map[], [] + [Packet(1, payload)]);
    assert Step(u, evs[2]) == u;
    assert Run(u, [evs[2]]) == Run(u, []) by { assert [evs[2]][1..] == []; }
  }
}
