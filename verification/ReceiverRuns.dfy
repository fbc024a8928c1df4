/** Lossless exactness and bounded wait of the Python resequencing buffer, over whole runs. */
module ReceiverRuns {
  import opened Reorder
  import opened Receiver

  // ---------- Lossless exactness ----------

  ghost predicate NoSkips<T>(s: State<T>, evs: seq<Event<T>>, timeout: int)
    decreases |evs|
  {
    evs == [] ||
    (&& (evs[0].Tick? ==> !SkipsAt(s, evs[0].now, timeout))
     && NoSkips(Step(s, evs[0], timeout), evs[1..], timeout))
  }

  /** The log is exactly the first |log| payloads of the sent list, and the cursor is its length. */
  ghost predicate ExactPrefix<T>(c: Core<T>, sent: seq<T>) {
    && c.next == |c.log| <= |sent|
    && (forall i :: 0 <= i < |c.log| ==> c.log[i] == Packet(i, sent[i]))
    && (forall k :: k in c.buf ==> k < |sent| && c.buf[k].payload == sent[k])
  }

  ghost predicate Genuine<T>(ev: Event<T>, sent: seq<T>) {
    ev.Arrive? ==> ev.num < |sent| && ev.payload == sent[ev.num]
  }

  ghost predicate Covered<T>(c: Core<T>, k: nat) {
    k < c.next || k in c.buf
  }

  lemma {:induction false} ReleaseKeepsPrefix<T>(c: Core<T>, sent: seq<T>)
    requires ExactPrefix(c, sent)
    ensures ExactPrefix(Release(c), sent)
    ensures forall k :: Covered(c, k) ==> Covered(Release(c), k)
  {
    ReleaseMeaning(c);
    var d := Release(c);
    if d.next > c.next {
      assert d.next - 1 in c.buf;
    }
    forall i | 0 <= i < |d.log|
      ensures d.log[i] == Packet(i, sent[i])
    {
      if i < |c.log| {
        assert d.log[i] == c.log[i];
      } else {
        assert d.log[|c.log| + (i - c.next)] == Packet(i, c.buf[i].payload);
      }
    }
  }

  lemma {:induction false} StepKeepsPrefix<T>(s: State<T>, ev: Event<T>, timeout: int, sent: seq<T>)
    requires Valid(s) && ExactPrefix(s.core, sent) && Genuine(ev, sent)
    requires ev.Tick? ==> !SkipsAt(s, ev.now, timeout)
    ensures ExactPrefix(Step(s, ev, timeout).core, sent)
    ensures forall k :: Covered(s.core, k) ==> Covered(Step(s, ev, timeout).core, k)
    ensures ev.Arrive? ==> Covered(Step(s, ev, timeout).core, ev.num)
  {
    match ev
    case Arrive(num, payload, now) =>
      if !Drops(s, num) {
        var c := Stash(s.core, num, payload, now);
        ReleaseKeepsPrefix(c, sent);
        assert Covered(c, num);
        assert forall k :: Covered(s.core, k) ==> Covered(c, k);
      }
    case Tick(now) =>
  }

  ghost predicate Arrives<T>(evs: seq<Event<T>>, k: nat) {
    exists i :: 0 <= i < |evs| && evs[i].Arrive? && evs[i].num == k
  }

  lemma {:induction false} RunKeepsPrefix<T>(s: State<T>, evs: seq<Event<T>>, timeout: int, sent: seq<T>)
    requires Valid(s) && ExactPrefix(s.core, sent) && NoSkips(s, evs, timeout)
    requires forall i :: 0 <= i < |evs| ==> Genuine(evs[i], sent)
    ensures Valid(Run(s, evs, timeout)) && ExactPrefix(Run(s, evs, timeout).core, sent)
    ensures forall k :: Covered(s.core, k) || Arrives(evs, k) ==> Covered(Run(s, evs, timeout).core, k)
    decreases |evs|
  {
    if evs == [] {
    } else {
      var t := Step(s, evs[0], timeout);
      StepRefines(s, evs[0], timeout);
      StepKeepsPrefix(s, evs[0], timeout, sent);
      RunKeepsPrefix(t, evs[1..], timeout, sent);
      forall k | Arrives(evs, k)
        ensures Covered(Run(s, evs, timeout).core, k)
      {
        var i :| 0 <= i < |evs| && evs[i].Arrive? && evs[i].num == k;
        if i > 0 {
          assert evs[1..][i - 1] == evs[i];
          assert Arrives(evs[1..], k);
        }
      }
    }
  }

  ghost function InSequence<T>(sent: seq<T>): seq<Packet<T>> {
    seq(|sent|, i requires 0 <= i < |sent| => Packet(i, sent[i]))
  }

  /** If every sent packet arrives at least once, in any order and with any duplicates, and no
      round skips, the callback has seen exactly the sent list and the buffer ends empty. */
  lemma {:induction false} LosslessExactness<T>(evs: seq<Event<T>>, timeout: int, sent: seq<T>)
    requires forall i :: 0 <= i < |evs| ==> Genuine(evs[i], sent)
    requires forall k :: 0 <= k < |sent| ==> Arrives(evs, k)
    requires NoSkips(Initial(), evs, timeout)
    ensures var e := Run(Initial(), evs, timeout);
      && e.core.log == InSequence(sent) && e.core.next == |sent|
      && e.core.buf == map[] && e.seen == {}
  {
    RunKeepsPrefix(Initial(), evs, timeout, sent);
    var e := Run(Initial(), evs, timeout);
    assert e.core.next < |sent| ==> Arrives(evs, e.core.next) && Covered(e.core, e.core.next);
    assert e.core.next == |sent|;
    assert e.core.buf.Keys == {};
  }

  ghost predicate HeldSince<T>(c: Core<T>, start: int) {
    forall k :: k in c.buf ==> start <= c.buf[k].since
  }

  lemma {:induction false} WindowAvoidsSkips<T>(s: State<T>, evs: seq<Event<T>>, timeout: int, start: int)
    requires Valid(s) && HeldSince(s.core, start)
    requires forall i :: 0 <= i < |evs| ==> start <= evs[i].now < start + timeout
    ensures NoSkips(s, evs, timeout)
    decreases |evs|
  {
    if evs == [] {
    } else {
      var ev := evs[0];
      assert ev.Tick? ==> !SkipsAt(s, ev.now, timeout);
      StepRefines(s, ev, timeout);
      if ev.Arrive? {
        ReleaseMeaning(Stash(s.core, ev.num, ev.payload, ev.now));
      }
      WindowAvoidsSkips(Step(s, ev, timeout), evs[1..], timeout, start);
    }
  }

  /** The same from what a caller can see: the whole burst falls inside one flush timeout. */
  lemma {:induction false} BurstWithinTimeoutIsExact<T>(evs: seq<Event<T>>, timeout: int, sent: seq<T>, start: int)
    requires forall i :: 0 <= i < |evs| ==> Genuine(evs[i], sent)
    requires forall k :: 0 <= k < |sent| ==> Arrives(evs, k)
    requires forall i :: 0 <= i < |evs| ==> start <= evs[i].now < start + timeout
    ensures Run(Initial(), evs, timeout).core.log == InSequence(sent)
    ensures Run(Initial(), evs, timeout).core.buf == map[]
  {
    WindowAvoidsSkips(Initial(), evs, timeout, start);
    LosslessExactness(evs, timeout, sent);
  }

  // ---------- Bounded wait ----------

  /** Numbers below num that neither left nor arrived: what a packet held under num still waits for. */
  ghost function Missing<T>(c: Core<T>, num: nat): set<nat> {
    set k | c.next <= k < num && k !in c.buf
  }

  lemma {:induction false} IntervalSize(lo: nat, hi: nat, s: set<nat>)
    requires lo <= hi && forall k :: k in s ==> lo <= k < hi
    ensures |s| <= hi - lo
    decreases hi
  {
    if lo == hi {
      assert s == {};
    } else {
      IntervalSize(lo, hi - 1, s - {hi - 1});
      if hi - 1 in s {
        assert |s - {hi - 1}| == |s| - 1;
      } else {
        assert s - {hi - 1} == s;
      }
    }
  }

  lemma {:induction false} StrictSubsetIsSmaller(small: set<nat>, big: set<nat>, k: nat)
    requires small <= big && k in big && k !in small
    ensures |small| < |big|
  {
    assert small <= big - {k};
    SubsetIsNotLarger(small, big - {k});
  }

  lemma {:induction false} SubsetIsNotLarger(small: set<nat>, big: set<nat>)
    requires small <= big
    ensures |small| <= |big|
    decreases small
  {
    if small != {} {
      var k :| k in small;
      SubsetIsNotLarger(small - {k}, big - {k});
    }
  }

  /** The clock never runs back, and a round of the flush task is never more than gap overdue. */
  ghost predicate Timely<T>(evs: seq<Event<T>>, lastRound: int, clock: int, gap: nat)
    decreases |evs|
  {
    evs == [] ||
    (&& clock <= evs[0].now <= lastRound + gap
     && Timely(evs[1..], if evs[0].Tick? then evs[0].now else lastRound, evs[0].now, gap))
  }

  ghost function ClockAfter<T>(evs: seq<Event<T>>, clock: int): int {
    if evs == [] then clock else evs[|evs| - 1].now
  }

  /** A packet is waiting under num, and everything held up to num was there when the stage began. */
  ghost predicate Waiting<T>(s: State<T>, num: nat, stage: int) {
    && Valid(s) && num in s.core.buf
    && (forall k :: k in s.core.buf && k <= num ==> s.core.buf[k].since <= stage)
  }

  lemma {:induction false} ArrivalStage<T>(s: State<T>, k: nat, payload: T, now: int, num: nat, stage: int)
    requires Waiting(s, num, stage) && stage <= now && num in AfterPut(s, k, payload, now).core.buf
    ensures var t := AfterPut(s, k, payload, now);
      || (Waiting(t, num, now) && |Missing(t.core, num)| < |Missing(s.core, num)|)
      || (Waiting(t, num, stage) && |Missing(t.core, num)| == |Missing(s.core, num)|)
  {
    PutKeepsInv(s, k, payload, now);
    var t := AfterPut(s, k, payload, now);
    if !Drops(s, k) {
      ReleaseMeaning(Stash(s.core, k, payload, now));
      assert Missing(t.core, num) <= Missing(s.core, num);
      if k < num {
        assert k in Missing(s.core, num) && k !in Missing(t.core, num);
        StrictSubsetIsSmaller(Missing(t.core, num), Missing(s.core, num), k);
      } else {
        assert t.core.next == s.core.next;
        assert Missing(t.core, num) == Missing(s.core, num);
      }
    }
  }

  lemma {:induction false} RoundStage<T>(s: State<T>, now: int, num: nat, stage: int, timeout: nat)
    requires Waiting(s, num, stage) && stage <= now && num in AfterRound(s, now, timeout).core.buf
    ensures var t := AfterRound(s, now, timeout);
      || (Waiting(t, num, now) && |Missing(t.core, num)| < |Missing(s.core, num)|)
      || (t == s && now < stage + timeout)
  {
    RoundKeepsInv(s, now, timeout);
    if SkipsAt(s, now, timeout) {
      var t := AfterRound(s, now, timeout);
      ReleaseMeaning(s.core.(next := Lowest(s.core.buf)));
      assert Missing(t.core, num) <= Missing(s.core, num);
      assert s.core.next in Missing(s.core, num);
      StrictSubsetIsSmaller(Missing(t.core, num), Missing(s.core, num), s.core.next);
    }
  }

  lemma {:induction false} StepHolds<T>(s: State<T>, evs: seq<Event<T>>, num: nat, timeout: int)
    requires Valid(s) && num in s.core.buf && evs != []
    requires num in Run(s, evs, timeout).core.buf
    ensures Valid(Step(s, evs[0], timeout)) && num in Step(s, evs[0], timeout).core.buf
  {
    StepRefines(s, evs[0], timeout);
    if num !in Step(s, evs[0], timeout).core.buf {
      HandedOverStaysOut(s, evs[0], num, timeout);
      NeverHeldAgain(Step(s, evs[0], timeout), evs[1..], num, timeout);
    }
  }

  lemma {:induction false} SomethingIsMissing<T>(s: State<T>, num: nat)
    requires Valid(s) && num in s.core.buf
    ensures |Missing(s.core, num)| >= 1
  {
    assert s.core.next in Missing(s.core, num);
  }

  /** While the packet is still held, the clock has not passed the start of its current stage by
      more than one timeout and one gap for every number it still waits for. */
  lemma {:induction false} StagesBoundTheClock<T>(s: State<T>, evs: seq<Event<T>>, num: nat, stage: int,
        lastRound: int, clock: int, timeout: nat, gap: nat)
    requires Waiting(s, num, stage)
    requires stage <= clock <= lastRound + gap && lastRound <= stage + timeout
    requires Timely(evs, lastRound, clock, gap)
    requires num in Run(s, evs, timeout).core.buf
    ensures ClockAfter(evs, clock) <= stage + |Missing(s.core, num)| * (timeout + gap)
    decreases |evs|
  {
    SomethingIsMissing(s, num);
    if evs == [] {
      Widen(|Missing(s.core, num)|, 1, timeout + gap);
    } else {
      var t, now := Step(s, evs[0], timeout), evs[0].now;
      StepHolds(s, evs, num, timeout);
      var last := now;
      match evs[0] {
        case Arrive(k, payload, _) =>
          last := lastRound;
          ArrivalStage(s, k, payload, now, num, stage);
        case Tick(_) => RoundStage(s, now, num, stage, timeout);
      }
      if |Missing(t.core, num)| < |Missing(s.core, num)| {
        StagesBoundTheClock(t, evs[1..], num, now, last, now, timeout, gap);
        Widen(|Missing(s.core, num)|, |Missing(t.core, num)| + 1, timeout + gap);
        Widen(|Missing(s.core, num)|, |Missing(t.core, num)|, timeout + gap);
      } else {
        StagesBoundTheClock(t, evs[1..], num, stage, last, now, timeout, gap);
      }
    }
  }

  lemma {:induction false} Widen(big: nat, small: nat, unit: nat)
    requires small <= big
    ensures small * unit <= big * unit
    ensures (small + 1) * unit == small * unit + unit
  {
    assert (big - small) * unit >= 0;
  }

  /** A held packet that is no longer held went below the cursor. */
  lemma {:induction false} HandedOverStaysOut<T>(s: State<T>, ev: Event<T>, num: nat, timeout: int)
    requires Valid(s) && num in s.core.buf && num !in Step(s, ev, timeout).core.buf
    ensures num < Step(s, ev, timeout).core.next
  {
    match ev
    case Arrive(k, payload, now) =>
      ReleaseMeaning(Stash(s.core, k, payload, now));
    case Tick(now) =>
      if SkipsAt(s, now, timeout) {
        ReleaseMeaning(s.core.(next := Lowest(s.core.buf)));
      }
  }

  lemma {:induction false} NeverHeldAgain<T>(s: State<T>, evs: seq<Event<T>>, num: nat, timeout: int)
    requires Valid(s) && num < s.core.next
    ensures num !in Run(s, evs, timeout).core.buf
  {
    RunKeepsOrder(s, evs, timeout);
    RunRefines(s, evs, timeout);
  }

  /** While the packet is held, the clock stays within the bound. */
  lemma {:induction false} HeldWithinBound<T>(s: State<T>, num: nat, payload: T, now: int, evs: seq<Event<T>>,
        lastRound: int, timeout: nat, gap: nat)
    requires Valid(s) && !Drops(s, num)
    requires forall k :: k in s.core.buf ==> s.core.buf[k].since <= now
    requires lastRound <= now <= lastRound + gap
    requires Timely(evs, lastRound, now, gap)
    requires num in AfterPut(s, num, payload, now).core.buf
    requires num in Run(AfterPut(s, num, payload, now), evs, timeout).core.buf
    ensures ClockAfter(evs, now) <= now + (num - s.core.next) * (timeout + gap)
  {
    var t := AfterPut(s, num, payload, now);
    PutKeepsInv(s, num, payload, now);
    ReleaseMeaning(Stash(s.core, num, payload, now));
    assert Waiting(t, num, now);
    StagesBoundTheClock(t, evs, num, now, lastRound, now, timeout, gap);
    IntervalSize(t.core.next, num, Missing(t.core, num));
    Widen(num - s.core.next, |Missing(t.core, num)|, timeout + gap);
  }

  /** A packet accepted is known from then on: handed over or held. */
  lemma {:induction false} AcceptedStaysKnown<T>(s: State<T>, num: nat, payload: T, now: int, evs: seq<Event<T>>,
        timeout: int)
    requires Valid(s) && !Drops(s, num)
    ensures var t := AfterPut(s, num, payload, now); var e := Run(t, evs, timeout);
      && Valid(t) && Ordered(e.core) && num in Known(e.core)
      && (num in e.core.buf ==> num in t.core.buf)
  {
    var accept := Arrive(num, payload, now);
    var t := Step(s, accept, timeout);
    StepRefines(s, accept, timeout);
    MachineKeepsOrder(s.core, Actions(s, accept, timeout), t.core);
    RunRefines(t, evs, timeout);
    MachineKeepsOrder(t.core, RunActions(t, evs, timeout), Run(t, evs, timeout).core);
    if num !in t.core.buf {
      NeverHeldAgain(t, evs, num, timeout);
    }
  }

  /** Bounded wait.  A packet is accepted under num at time now.  In any continuation whose clock
      never runs back and whose flush rounds are at most gap apart, every moment later than
      now + (num - cursor) * (timeout + gap) finds the packet handed to the callback, however many
      lower arrivals replace the head and its timer meanwhile. */
  lemma {:induction false} BoundedWait<T>(s: State<T>, num: nat, payload: T, now: int, evs: seq<Event<T>>,
        lastRound: int, timeout: nat, gap: nat)
    requires Valid(s) && !Drops(s, num)
    requires forall k :: k in s.core.buf ==> s.core.buf[k].since <= now
    requires lastRound <= now <= lastRound + gap
    requires Timely(evs, lastRound, now, gap)
    requires ClockAfter(evs, now) > now + (num - s.core.next) * (timeout + gap)
    ensures var e := Run(AfterPut(s, num, payload, now), evs, timeout);
      num in Delivered(e.core) && num < e.core.next
  {
    AcceptedStaysKnown(s, num, payload, now, evs, timeout);
    if num in Run(AfterPut(s, num, payload, now), evs, timeout).core.buf {
      HeldWithinBound(s, num, payload, now, evs, lastRound, timeout, gap);
      assert false;
    }
  }

  /** The factor in the bound is needed: a lower arrival becomes the head and restarts the wait, so
      rounds at 40 ms and 78 ms both leave packet 2, held since 0 ms, where it is. */
  lemma {:induction false} LowerArrivalRestartsTheWait(payload: int)
    ensures var evs := [Arrive(2, payload, 0), Arrive(1, payload, 39), Tick(40), Tick(78)];
      2 in Run(Initial<int>(), evs, 40).core.buf
  {
    var evs := [Arrive(2, payload, 0), Arrive(1, payload, 39), Tick(40), Tick(78)];
    var s1 := Step(Initial<int>(), evs[0], 40);
    assert s1.core == Core(0, map[2 := Stored(payload, 0)], []) && 1 !in s1.seen;
    var s2 := Step(s1, evs[1], 40);
    assert s2.core == Core(0, map[2 := Stored(payload, 0), 1 := Stored(payload, 39)], []);
    assert 1 in s2.core.buf;
    assert Lowest(s2.core.buf) == 1;
    assert Step(s2, Tick(40), 40) == s2 && Step(s2, Tick(78), 40) == s2;
    assert evs[1..] == [evs[1], evs[2], evs[3]] && evs[2..] == [evs[2], evs[3]] && evs[3..] == [evs[3]];
    assert evs[1..][1..] == evs[2..] && evs[2..][1..] == evs[3..] && evs[3..][1..] == [];
    assert Run(s2, evs[2..], 40) == Run(s2, evs[3..], 40) == Run(s2, [], 40);
  }
}
