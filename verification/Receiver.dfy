/** The Python resequencing buffer (aetherbond/server/receiver.py).

    Every critical section under the buffer's lock is one atomic step: `put`, and one round of the
    flush task.  Clock readings are parameters.
 */
module Receiver {
  import opened Reorder

  /** Everything the buffer keeps between two critical sections.  flushTask says that the buffer
      remembers a flush task; tasks counts the flush loops that are really alive. */
  datatype State<T> = State(core: Core<T>, seen: set<nat>, flushTask: bool, tasks: nat)

  datatype Event<T> = Arrive(num: nat, payload: T, now: int) | Tick(now: int)

  ghost function Initial<T>(): State<T> {
    State(Core(0, map[], []), {}, false, 0)
  }

  // ---------- One critical section ----------

  ghost predicate Drops<T>(s: State<T>, num: nat) {
    num in s.seen || num < s.core.next
  }

  ghost function Stash<T>(c: Core<T>, num: nat, payload: T, now: int): Core<T> {
    c.(buf := c.buf[num := Stored(payload, now)])
  }

  ghost function Outside(nums: set<nat>, lo: nat, hi: nat): set<nat> {
    set k | k in nums && !(lo <= k < hi)
  }

  /** Releases the run at the cursor and forgets the numbers that left. */
  ghost function Drain<T>(s: State<T>): State<T> {
    var c := Release(s.core);
    s.(core := c, seen := Outside(s.seen, s.core.next, c.next))
  }

  ghost function Watch<T>(s: State<T>): State<T> {
    if s.core.buf != map[] && !s.flushTask then s.(flushTask := true, tasks := s.tasks + 1) else s
  }

  ghost function Stashed<T>(s: State<T>, num: nat, payload: T, now: int): State<T> {
    s.(core := Stash(s.core, num, payload, now), seen := s.seen + {num})
  }

  ghost function AfterPut<T>(s: State<T>, num: nat, payload: T, now: int): State<T> {
    if Drops(s, num) then s else Watch(Drain(Stashed(s, num, payload, now)))
  }

  /** The round of the flush task at this moment jumps over a gap. */
  ghost predicate SkipsAt<T>(s: State<T>, now: int, timeout: int) {
    && s.tasks > 0 && s.core.buf != map[]
    && s.core.next < Lowest(s.core.buf)
    && now - s.core.buf[Lowest(s.core.buf)].since >= timeout
  }

  /** One round of the flush task; without a live task there is no such round. */
  ghost function AfterRound<T>(s: State<T>, now: int, timeout: int): State<T> {
    if s.tasks == 0 then s
    else if s.core.buf == map[] then s.(flushTask := false, tasks := s.tasks - 1)
    else if s.core.next < Lowest(s.core.buf) then
      if now - s.core.buf[Lowest(s.core.buf)].since >= timeout
      then Drain(s.(core := s.core.(next := Lowest(s.core.buf))))
      else s
    else Drain(s)
  }

  ghost function Step<T>(s: State<T>, ev: Event<T>, timeout: int): State<T> {
    match ev
    case Arrive(num, payload, now) => AfterPut(s, num, payload, now)
    case Tick(now) => AfterRound(s, now, timeout)
  }

  ghost function Run<T>(s: State<T>, evs: seq<Event<T>>, timeout: int): State<T>
    decreases |evs|
  {
    if evs == [] then s else Run(Step(s, evs[0], timeout), evs[1..], timeout)
  }

  // ---------- The invariant at every release of the lock ----------

  ghost predicate Valid<T>(s: State<T>) {
    && Ordered(s.core)
    && s.core.next !in s.core.buf
    && s.seen == s.core.buf.Keys
    && s.tasks == (if s.flushTask then 1 else 0)
    && (s.core.buf != map[] ==> s.flushTask)
  }

  // ---------- The release loop ----------

  /** Nothing held lies below the cursor, and everything held was seen. */
  ghost predicate HeadsSeen<T>(s: State<T>) {
    forall k :: k in s.core.buf ==> s.core.next <= k && k in s.seen
  }

  /** The loop that started in s is in t. */
  ghost predicate Draining<T>(s: State<T>, t: State<T>) {
    && HeadsSeen(t) && s.core.next <= t.core.next
    && Release(t.core) == Release(s.core)
    && t.seen == Outside(s.seen, s.core.next, t.core.next)
    && t.flushTask == s.flushTask && t.tasks == s.tasks
  }

  lemma {:induction false} DrainingAdvances<T>(s: State<T>, t: State<T>)
    requires Draining(s, t) && t.core.next in t.core.buf
    ensures Draining(s, t.(core := Advance(t.core), seen := t.seen - {t.core.next}))
    ensures |Advance(t.core).buf| < |t.core.buf|
  {
    assert Advance(t.core).buf.Keys == t.core.buf.Keys - {t.core.next};
    assert Release(t.core) == Release(Advance(t.core));
  }

  lemma DrainingEnds<T>(s: State<T>, t: State<T>)
    requires Draining(s, t) && t.core.next !in t.core.buf
    ensures t == Drain(s)
  {
  }

  // ---------- The class ----------

  class ResequencingBuffer<T> {
    const flushTimeout: int
    var expectedSeq: nat
    var heap: map<nat, Stored<T>>
    var seenSeqs: set<nat>
    var flushTask: bool
    ghost var liveTasks: nat
    ghost var delivered: seq<Packet<T>>

    ghost function Model(): State<T>
      reads this
    {
      State(Core(expectedSeq, heap, delivered), seenSeqs, flushTask, liveTasks)
    }

    constructor (flushTimeout: int)
      ensures this.flushTimeout == flushTimeout
      ensures Model() == Initial() && Valid(Model())
    {
      this.flushTimeout := flushTimeout;
      expectedSeq, heap, seenSeqs, flushTask := 0, map[], {}, false;
      liveTasks, delivered := 0, [];
    }

    /** heappush.  Tuples with equal numbers would be compared by payload; the precondition says
        that this never happens. */
    method HeapPush(num: nat, payload: T, now: int)
      requires num !in heap
      modifies this`heap
      ensures heap == old(heap)[num := Stored(payload, now)]
    {
      heap := heap[num := Stored(payload, now)];
    }

    method ReadyAtCursor() returns (ready: bool)
      requires forall k :: k in heap ==> expectedSeq <= k
      ensures ready <==> expectedSeq in heap
    {
      if |heap| == 0 {
        return false;
      }
      var head := FindLowest(heap);
      ready := head == expectedSeq;
    }

    method ReleaseContiguousPackets()
      requires HeadsSeen(Model())
      modifies this
      ensures Model() == Drain(old(Model()))
    {
      ghost var s := Model();
      var ready := ReadyAtCursor();
      while ready
        invariant Draining(s, Model())
        invariant ready <==> expectedSeq in heap
        decreases |heap|
      {
        ghost var t := Model();
        DrainingAdvances(s, t);
        delivered := delivered + [Packet(expectedSeq, heap[expectedSeq].payload)];
        heap := heap - {expectedSeq};
        seenSeqs := seenSeqs - {expectedSeq};
        expectedSeq := expectedSeq + 1;
        assert Model() == t.(core := Advance(t.core), seen := t.seen - {t.core.next});
        ready := ReadyAtCursor();
      }
      DrainingEnds(s, Model());
    }

    method Put(num: nat, payload: T, now: int)
      requires Valid(Model())
      modifies this
      ensures Model() == AfterPut(old(Model()), num, payload, now)
      ensures Valid(Model())
    {
      ghost var s := Model();
      PutKeepsInv(s, num, payload, now);
      if num in seenSeqs || num < expectedSeq {
        return;
      }
      HeapPush(num, payload, now);
      seenSeqs := seenSeqs + {num};
      assert Model() == Stashed(s, num, payload, now);
      ReleaseContiguousPackets();
      ghost var drained := Drain(Stashed(s, num, payload, now));
      if |heap| > 0 && !flushTask {
        flushTask := true;
        liveTasks := liveTasks + 1;
      }
      assert Model() == Watch(drained);
    }

    /** One round of the flush task after its sleep; done says that the flush task has ended. */
    method WaitAndFlushMissing(now: int) returns (done: bool)
      requires Valid(Model()) && liveTasks > 0
      modifies this
      ensures Model() == AfterRound(old(Model()), now, flushTimeout)
      ensures done <==> old(heap) == map[]
      ensures done <==> liveTasks == 0
      ensures Valid(Model())
    {
      RoundKeepsInv(Model(), now, flushTimeout);
      if |heap| == 0 {
        flushTask := false;
        liveTasks := liveTasks - 1;
        return true;
      }
      var oldest := FindLowest(heap);
      if oldest > expectedSeq {
        var elapsed := now - heap[oldest].since;
        if elapsed >= flushTimeout {
          expectedSeq := oldest;
          ReleaseContiguousPackets();
        }
      } else {
        ReleaseContiguousPackets();
      }
      done := false;
    }
  }

  // ---------- Refinement of the reordering machine ----------

  lemma {:induction false} DrainMeaning<T>(s: State<T>)
    requires forall k :: k in s.core.buf ==> s.core.next <= k
    requires s.seen == s.core.buf.Keys && Ordered(s.core)
    ensures var d := Drain(s);
      Ordered(d.core) && d.core.next !in d.core.buf && d.seen == d.core.buf.Keys
  {
    ReleaseTakesRun(s.core);
    ReleaseSteps(s.core);
    MachineKeepsOrder(s.core, Delivers(Release(s.core).next - s.core.next), Release(s.core));
  }

  lemma {:induction false} PutKeepsInv<T>(s: State<T>, num: nat, payload: T, now: int)
    requires Valid(s)
    ensures Valid(AfterPut(s, num, payload, now))
  {
    if !Drops(s, num) {
      DrainMeaning(Stashed(s, num, payload, now));
    }
  }

  lemma {:induction false} RoundKeepsInv<T>(s: State<T>, now: int, timeout: int)
    requires Valid(s)
    ensures Valid(AfterRound(s, now, timeout))
  {
    if SkipsAt(s, now, timeout) {
      DrainMeaning(s.(core := s.core.(next := Lowest(s.core.buf))));
    }
  }

  /** The actions of the reordering machine that one critical section performs. */
  ghost function Actions<T>(s: State<T>, ev: Event<T>, timeout: int): seq<Action<T>> {
    match ev
    case Arrive(num, payload, now) =>
      if Drops(s, num) then []
      else
        var c := Stash(s.core, num, payload, now);
        ReleaseSteps(c);
        [Accept(num, Stored(payload, now))] + Delivers(Release(c).next - c.next)
    case Tick(now) =>
      if SkipsAt(s, now, timeout) then
        var c := s.core.(next := Lowest(s.core.buf));
        ReleaseSteps(c);
        [Skip] + Delivers(Release(c).next - c.next)
      else []
  }

  ghost function Taken<T>(s: State<T>, ev: Event<T>): set<nat> {
    if ev.Arrive? && !Drops(s, ev.num) then {ev.num} else {}
  }

  /** Every critical section is a run of the machine, and accepts just the number it does not drop. */
  lemma {:induction false} StepRefines<T>(s: State<T>, ev: Event<T>, timeout: int)
    requires Valid(s)
    ensures Valid(Step(s, ev, timeout))
    ensures Steps(s.core, Actions(s, ev, timeout), Step(s, ev, timeout).core)
    ensures AcceptedBy(Actions(s, ev, timeout)) == Taken(s, ev)
  {
    match ev
    case Arrive(num, payload, now) =>
      PutKeepsInv(s, num, payload, now);
      if !Drops(s, num) {
        var c := Stash(s.core, num, payload, now);
        ReleaseSteps(c);
        var n := Release(c).next - c.next;
        var accept := [Accept(num, Stored(payload, now))];
        SingleStep(s.core, accept[0]);
        StepsCompose(s.core, accept, c, Delivers(n), Release(c));
        AcceptedByCompose(accept, Delivers(n));
        DeliversAcceptNothing<T>(n);
      }
    case Tick(now) =>
      RoundKeepsInv(s, now, timeout);
      if SkipsAt(s, now, timeout) {
        var c := s.core.(next := Lowest(s.core.buf));
        ReleaseSteps(c);
        var n := Release(c).next - c.next;
        var skip: seq<Action<T>> := [Skip];
        SingleStep(s.core, skip[0]);
        StepsCompose(s.core, skip, c, Delivers(n), Release(c));
        AcceptedByCompose(skip, Delivers(n));
        DeliversAcceptNothing<T>(n);
      }
  }

  lemma {:induction false} ActionsAcceptTheArrival<T>(s: State<T>, ev: Event<T>, timeout: int, i: nat)
    requires i < |Actions(s, ev, timeout)|
    ensures Actions(s, ev, timeout)[i].Accept? ==>
      ev.Arrive? && Actions(s, ev, timeout)[i] == Accept(ev.num, Stored(ev.payload, ev.now))
  {
    match ev
    case Arrive(num, payload, now) =>
      if i > 0 {
        ReleaseSteps(Stash(s.core, num, payload, now));
        assert Actions(s, ev, timeout)[i].Deliver?;
      }
    case Tick(now) =>
      if i > 0 && SkipsAt(s, now, timeout) {
        ReleaseSteps(s.core.(next := Lowest(s.core.buf)));
        assert Actions(s, ev, timeout)[i].Deliver?;
      }
  }

  ghost function RunActions<T>(s: State<T>, evs: seq<Event<T>>, timeout: int): seq<Action<T>>
    decreases |evs|
  {
    if evs == [] then []
    else Actions(s, evs[0], timeout) + RunActions(Step(s, evs[0], timeout), evs[1..], timeout)
  }

  /** The numbers accepted over a run. */
  ghost function Accepted<T>(s: State<T>, evs: seq<Event<T>>, timeout: int): set<nat>
    decreases |evs|
  {
    if evs == [] then {}
    else Taken(s, evs[0]) + Accepted(Step(s, evs[0], timeout), evs[1..], timeout)
  }

  /** Every run of the buffer, whatever arrives and whenever the flush task runs, is a run of the
      reordering machine that accepts just what the buffer accepted. */
  lemma {:induction false} RunRefines<T>(s: State<T>, evs: seq<Event<T>>, timeout: int)
    requires Valid(s)
    ensures Valid(Run(s, evs, timeout))
    ensures Steps(s.core, RunActions(s, evs, timeout), Run(s, evs, timeout).core)
    ensures AcceptedBy(RunActions(s, evs, timeout)) == Accepted(s, evs, timeout)
    decreases |evs|
  {
    if evs == [] {
    } else {
      StepRefines(s, evs[0], timeout);
      var t := Step(s, evs[0], timeout);
      RunRefines(t, evs[1..], timeout);
      var first, rest := Actions(s, evs[0], timeout), RunActions(t, evs[1..], timeout);
      StepsCompose(s.core, first, t.core, rest, Run(s, evs, timeout).core);
      AcceptedByCompose(first, rest);
    }
  }

  // ---------- Order, conservation, watchdog ----------

  /** Over any run from any reachable point: deliveries are strictly increasing in number, earlier
      deliveries stay, and the cursor never moves back. */
  lemma {:induction false} RunKeepsOrder<T>(s: State<T>, evs: seq<Event<T>>, timeout: int)
    requires Valid(s)
    ensures var e := Run(s, evs, timeout);
      InOrder(e.core.log) && s.core.log <= e.core.log && s.core.next <= e.core.next
  {
    RunRefines(s, evs, timeout);
    MachineKeepsOrder(s.core, RunActions(s, evs, timeout), Run(s, evs, timeout).core);
  }

  /** Conservation and watchdog at every release of the lock: what was accepted is delivered or
      held and never both; seen_seqs is the set of held numbers; every held number is strictly above
      the cursor, so a round never finds its head already releasable; and packets are held only
      while exactly one flush task is alive. */
  lemma {:induction false} ConservationAndWatchdog<T>(evs: seq<Event<T>>, timeout: int)
    ensures var e := Run(Initial<T>(), evs, timeout);
      && Accepted(Initial<T>(), evs, timeout) == Delivered(e.core) + e.core.buf.Keys
      && Delivered(e.core) !! e.core.buf.Keys
      && e.seen == e.core.buf.Keys
      && (forall k :: k in e.core.buf ==> e.core.next < k)
      && e.tasks <= 1 && (e.tasks == 1 <==> e.flushTask)
      && (e.core.buf != map[] ==> e.tasks == 1 && e.core.next < Lowest(e.core.buf))
  {
    RunRefines(Initial<T>(), evs, timeout);
    MachineKeepsOrder(Initial<T>().core, RunActions(Initial<T>(), evs, timeout), Run(Initial<T>(), evs, timeout).core);
  }

  // ---------- One critical section, exactly ----------

  /** What put does to a buffer at rest: nothing with a duplicate or a late packet, storing one that is
      ahead, and handing over the run that the awaited one completes; and a flush task is started
      exactly when packets are left held and none is alive. */
  lemma {:induction false} PutExactly<T>(s: State<T>, num: nat, payload: T, now: int)
    requires Valid(s)
    ensures var t := AfterPut(s, num, payload, now); var stored := s.core.buf[num := Stored(payload, now)];
      && (num < s.core.next || num in s.core.buf ==> t == s)
      && (s.core.next < num && num !in s.core.buf ==> t.core == s.core.(buf := stored))
      && (num == s.core.next ==> HandsOver(s.core.(buf := stored), t.core))
      && t.tasks == (if s.tasks == 0 && t.core.buf != map[] then 1 else s.tasks)
  {
    ReleaseHandsOver(Stash(s.core, num, payload, now));
    PutKeepsInv(s, num, payload, now);
  }

  /** What a round of the live flush task does: it ends on an empty heap, waits while the lowest packet
      is younger than the timeout, and otherwise hands over the run that starts there, past one gap. */
  lemma {:induction false} RoundExactly<T>(s: State<T>, now: int, timeout: int)
    requires Valid(s) && s.tasks == 1
    ensures var t, buf := AfterRound(s, now, timeout), s.core.buf;
      && (buf == map[] ==> t == s.(flushTask := false, tasks := 0))
      && (buf != map[] && now < buf[Lowest(buf)].since + timeout ==> t == s)
      && (buf != map[] && now >= buf[Lowest(buf)].since + timeout ==>
            HandsOver(s.core.(next := Lowest(buf)), t.core) && s.core.next < Lowest(buf) < t.core.next && t.tasks == 1)
  {
    if s.core.buf != map[] {
      ReleaseHandsOver(s.core.(next := Lowest(s.core.buf)));
    }
  }
}
