/** The Rust resequencer (aetherbond-core/src/resequencing/mod.rs): an ordered map with a size cap
    and an external tick.  Clock readings are parameters, in microseconds. */
module Resequencing {
  import opened Reorder

  const U32_MAX: nat := 0xFFFF_FFFF
  const BASELINE_TIMEOUT: int := 40_000
  const MIN_TIMEOUT: int := 15_000
  const MAX_TIMEOUT: int := 250_000

  datatype State<T> = State(core: Core<T>, timeout: int, capacity: nat)

  datatype Event<T> = Arrive(num: nat, payload: T, now: int) | Tick(now: int) | Retune(jitter: nat)

  // ---------- One call ----------

  /** Jumps to the lowest packet held and releases from there. */
  ghost function ForceHead<T>(c: Core<T>): Core<T> {
    if c.buf == map[] then c else Release(c.(next := Lowest(c.buf)))
  }

  ghost function MakeRoom<T>(c: Core<T>, capacity: nat): Core<T> {
    if |c.buf| >= capacity then ForceHead(c) else c
  }

  /** Storing under a held number replaces its payload and its clock reading. */
  ghost function Store<T>(c: Core<T>, num: nat, payload: T, now: int): Core<T> {
    c.(buf := c.buf[num := Stored(payload, now)])
  }

  ghost function AfterPut<T>(s: State<T>, num: nat, payload: T, now: int): State<T> {
    if num < s.core.next then s
    else s.(core := Release(Store(MakeRoom(s.core, s.capacity), num, payload, now)))
  }

  ghost predicate Expired<T>(s: State<T>, now: int) {
    s.core.buf != map[] && now - s.core.buf[Lowest(s.core.buf)].since > s.timeout
  }

  ghost function AfterTick<T>(s: State<T>, now: int): State<T> {
    if Expired(s, now) then s.(core := ForceHead(s.core)) else s
  }

  function Clamp(jitter: nat): (timeout: int)
    ensures MIN_TIMEOUT <= timeout <= MAX_TIMEOUT
    ensures 15_000 <= jitter * 3 / 2 <= 250_000 ==> timeout == jitter * 3 / 2
    ensures jitter * 3 / 2 < 15_000 ==> timeout == 15_000
    ensures jitter * 3 / 2 > 250_000 ==> timeout == 250_000
  {
    var scaled := jitter * 3 / 2;
    var raised := if scaled < MIN_TIMEOUT then MIN_TIMEOUT else scaled;
    if raised > MAX_TIMEOUT then MAX_TIMEOUT else raised
  }

  ghost function Step<T>(s: State<T>, ev: Event<T>): State<T> {
    match ev
    case Arrive(num, payload, now) => AfterPut(s, num, payload, now)
    case Tick(now) => AfterTick(s, now)
    case Retune(jitter) => s.(timeout := Clamp(jitter))
  }

  ghost function Run<T>(s: State<T>, evs: seq<Event<T>>): State<T>
    decreases |evs|
  {
    if evs == [] then s else Run(Step(s, evs[0]), evs[1..])
  }

  // ---------- The class ----------

  class Resequencer<T> {
    var nextSeq: nat
    var buffer: map<nat, Stored<T>>
    var adaptiveTimeout: int
    const maxBufferSize: nat
    ghost var delivered: seq<Packet<T>>

    ghost function Model(): State<T>
      reads this
    {
      State(Core(nextSeq, buffer, delivered), adaptiveTimeout, maxBufferSize)
    }

    /** The cursor stays a 32-bit number. */
    ghost predicate Fits()
      reads this
    {
      nextSeq <= U32_MAX && forall k :: k in buffer ==> k < U32_MAX
    }

    constructor (initialSeq: nat, maxBufferSize: nat)
      requires initialSeq <= U32_MAX
      ensures Fits()
      ensures Model() == State(Core(initialSeq, map[], []), BASELINE_TIMEOUT, maxBufferSize)
    {
      nextSeq, buffer, delivered := initialSeq, map[], [];
      adaptiveTimeout := BASELINE_TIMEOUT;
      this.maxBufferSize := maxBufferSize;
    }

    method UpdateTimeout(jitter: nat)
      requires Fits()
      modifies this`adaptiveTimeout
      ensures Fits() && Model() == Step(old(Model()), Retune(jitter))
    {
      adaptiveTimeout := Clamp(jitter);
    }

    method FlushConsecutive()
      requires Fits()
      modifies this`nextSeq, this`buffer, this`delivered
      ensures Fits()
      ensures Model() == old(Model()).(core := Release(old(Model()).core))
    {
      ghost var s := Model();
      while nextSeq in buffer
        invariant Fits()
        invariant Release(Model().core) == Release(s.core)
        decreases |buffer|
      {
        ghost var smaller := buffer.Keys - {nextSeq};
        delivered := delivered + [Packet(nextSeq, buffer[nextSeq].payload)];
        buffer := buffer - {nextSeq};
        assert buffer.Keys == smaller;
        nextSeq := nextSeq + 1;
      }
    }

    method ForceFlushHead()
      requires Fits()
      modifies this`nextSeq, this`buffer, this`delivered
      ensures Fits()
      ensures Model() == old(Model()).(core := ForceHead(old(Model()).core))
    {
      if |buffer| > 0 {
        nextSeq := FindLowest(buffer);
        FlushConsecutive();
      }
    }

    method Put(num: nat, payload: T, now: int)
      requires Fits() && num < U32_MAX
      modifies this`nextSeq, this`buffer, this`delivered
      ensures Fits()
      ensures Model() == AfterPut(old(Model()), num, payload, now)
    {
      if num < nextSeq {
        return;
      }
      if |buffer| >= maxBufferSize {
        ForceFlushHead();
      }
      buffer := buffer[num := Stored(payload, now)];
      FlushConsecutive();
    }

    method Tick(now: int)
      requires Fits()
      modifies this`nextSeq, this`buffer, this`delivered
      ensures Fits()
      ensures Model() == AfterTick(old(Model()), now)
    {
      if |buffer| == 0 {
        return;
      }
      var first := FindLowest(buffer);
      if now - buffer[first].since > adaptiveTimeout {
        nextSeq := first;
        FlushConsecutive();
      }
    }

    method Len() returns (n: nat)
      ensures n == |Model().core.buf|
    {
      n := |buffer|;
    }
  }

  // ---------- When order is kept, exactly ----------

  ghost predicate Valid<T>(s: State<T>) {
    Ordered(s.core) && s.core.next !in s.core.buf
  }

  /** What put does to a buffer at rest that has accepted the packet as not late: a full buffer first
      hands over the run at its lowest packet; then the packet is stored, over an older one of its
      number too, and handed over with the run it completes if it stands at the cursor. */
  lemma {:induction false} PutExactly<T>(s: State<T>, num: nat, payload: T, now: int) returns (room: Core<T>)
    requires Valid(s) && s.core.next <= num
    ensures if |s.core.buf| < s.capacity || s.core.buf == map[] then room == s.core
            else HandsOver(s.core.(next := Lowest(s.core.buf)), room)
    ensures var t := AfterPut(s, num, payload, now); var stored := room.(buf := room.buf[num := Stored(payload, now)]);
      && t.timeout == s.timeout && t.capacity == s.capacity
      && (num != room.next ==> t.core == stored) && (num == room.next ==> HandsOver(stored, t.core))
  {
    room := MakeRoom(s.core, s.capacity);
    if s.core.buf != map[] {
      ReleaseHandsOver(s.core.(next := Lowest(s.core.buf)));
    }
    ReleaseHandsOver(Store(room, num, payload, now));
  }

  /** What a tick does: it waits as long as the lowest packet has not aged past the timeout, and then
      hands over the run that starts there, past one gap. */
  lemma {:induction false} TickExactly<T>(s: State<T>, now: int)
    requires Valid(s)
    ensures var t, buf := AfterTick(s, now), s.core.buf;
      && (buf == map[] || now <= buf[Lowest(buf)].since + s.timeout ==> t == s)
      && (buf != map[] && now > buf[Lowest(buf)].since + s.timeout ==>
            && HandsOver(s.core.(next := Lowest(buf)), t.core) && s.core.next < Lowest(buf) < t.core.next
            && t.timeout == s.timeout && t.capacity == s.capacity)
  {
    if s.core.buf != map[] {
      ReleaseHandsOver(s.core.(next := Lowest(s.core.buf)));
    }
  }

  /** Late packets are dropped; any other must not fall below the cursor that the call's own forced
      flush, if there is one, leaves behind. */
  ghost predicate Guard<T>(s: State<T>, num: nat) {
    num < s.core.next || MakeRoom(s.core, s.capacity).next <= num
  }

  ghost predicate Guarded<T>(s: State<T>, evs: seq<Event<T>>)
    decreases |evs|
  {
    evs == [] || ((evs[0].Arrive? ==> Guard(s, evs[0].num)) && Guarded(Step(s, evs[0]), evs[1..]))
  }

  lemma {:induction false} ForceHeadSteps<T>(c: Core<T>)
    requires Ordered(c) && c.next !in c.buf && c.buf != map[]
    ensures var d := ForceHead(c);
      && Lowest(c.buf) < d.next && Ordered(d) && d.next !in d.buf
      && Steps(c, [Skip] + Delivers(d.next - Lowest(c.buf)), d)
  {
    var e := c.(next := Lowest(c.buf));
    ReleaseMeaning(e);
    ReleaseSteps(e);
    var skip: seq<Action<T>> := [Skip];
    SingleStep(c, skip[0]);
    var d := Release(e);
    StepsCompose(c, skip, e, Delivers(d.next - e.next), d);
    MachineKeepsOrder(c, skip + Delivers(d.next - e.next), d);
  }

  /** The last packet a forced flush hands over is the one just below the new cursor. */
  lemma {:induction false} ForceHeadEndsAtCursor<T>(c: Core<T>)
    requires c.buf != map[]
    ensures var d := ForceHead(c);
      |c.log| < |d.log| && d.log[|d.log| - 1].num + 1 == d.next
  {
    var e := c.(next := Lowest(c.buf));
    ReleaseMeaning(e);
    var d := Release(e);
    assert d.log[|e.log| + (d.next - 1 - e.next)] == Packet(d.next - 1, e.buf[d.next - 1].payload);
  }

  /** The guard is exactly the condition under which a call leaves no packet stranded below the cursor. */
  lemma {:induction false} PutKeepsOrderIff<T>(s: State<T>, num: nat, payload: T, now: int)
    requires Valid(s)
    ensures Valid(AfterPut(s, num, payload, now)) <==> Guard(s, num)
  {
    if num >= s.core.next {
      var room := MakeRoom(s.core, s.capacity);
      if |s.core.buf| >= s.capacity && s.core.buf != map[] {
        ForceHeadSteps(s.core);
      }
      if Guard(s, num) {
        StoreAboveKeepsOrder(room, num, payload, now);
      } else {
        var c := Store(room, num, payload, now);
        assert Release(c) == c && num in c.buf;
      }
    }
  }

  lemma {:induction false} StoreAboveKeepsOrder<T>(c: Core<T>, num: nat, payload: T, now: int)
    requires Ordered(c) && c.next <= num
    ensures var d := Release(Store(c, num, payload, now)); Ordered(d) && d.next !in d.buf
  {
    var e := Store(c, num, payload, now);
    ReleaseTakesRun(e);
    ReleaseSteps(e);
    MachineKeepsOrder(e, Delivers(Release(e).next - e.next), Release(e));
  }

  lemma {:induction false} TickKeepsOrder<T>(s: State<T>, now: int)
    requires Valid(s)
    ensures Valid(AfterTick(s, now))
  {
    if Expired(s, now) {
      ForceHeadSteps(s.core);
    }
  }

  /** The guard in terms of what is held: it fails exactly when the buffer is full, the packet is
      ahead of the cursor, and it lies below the lowest number held or inside the run of held numbers
      that starts there. */
  lemma {:induction false} GuardFailsExactly<T>(s: State<T>, num: nat)
    requires Valid(s)
    ensures !Guard(s, num) <==>
      && s.core.next <= num && |s.core.buf| >= s.capacity && s.core.buf != map[]
      && (num < Lowest(s.core.buf) || forall k :: Lowest(s.core.buf) <= k <= num ==> k in s.core.buf)
  {
    if |s.core.buf| >= s.capacity && s.core.buf != map[] {
      ReleaseTakesRun(s.core.(next := Lowest(s.core.buf)));
    }
  }

  /** Without the guard, the next expired tick hands over a packet that is not newer than the one
      before it, and the cursor does not move past where it was. */
  lemma {:induction false} UnguardedPutBreaksOrder<T>(s: State<T>, num: nat, payload: T, now: int, later: int)
    requires Valid(s) && !Guard(s, num) && later - now > s.timeout
    ensures var t := AfterPut(s, num, payload, now);
      !InOrder(AfterTick(t, later).core.log) && AfterTick(t, later).core.next <= t.core.next
  {
    ForceHeadSteps(s.core);
    ForceHeadEndsAtCursor(s.core);
    var d := ForceHead(s.core);
    var c := Store(d, num, payload, now);
    assert Release(c) == c;
    assert Lowest(c.buf) == num by { assert num in c.buf; }
    var e := c.(next := num);
    ReleaseMeaning(e);
    var f := Release(e);
    assert f.next == num + 1 by { assert num + 1 !in e.buf; }
    assert f.log[|e.log| + (num - num)] == Packet(num, payload);
    assert f.log[|d.log| - 1] == d.log[|d.log| - 1];
  }

  /** After the first k events of the run, a tick at the given time leaves the log in order. */
  ghost predicate InOrderAfter<T>(s: State<T>, evs: seq<Event<T>>, k: nat, later: int)
    requires k <= |evs|
  {
    InOrder(AfterTick(Run(s, evs[..k]), later).core.log)
  }

  lemma {:induction false} GuardedRunStaysValid<T>(s: State<T>, evs: seq<Event<T>>, k: nat)
    requires Valid(s) && Guarded(s, evs) && k <= |evs|
    ensures Valid(Run(s, evs[..k]))
    decreases |evs|
  {
    if k > 0 {
      StepKeepsOrder(s, evs[0]);
      assert evs[..k][1..] == evs[1..][..k - 1];
      GuardedRunStaysValid(Step(s, evs[0]), evs[1..], k - 1);
    }
  }

  lemma {:induction false} StepKeepsOrder<T>(s: State<T>, ev: Event<T>)
    requires Valid(s) && (ev.Arrive? ==> Guard(s, ev.num))
    ensures Valid(Step(s, ev))
  {
    match ev
    case Arrive(num, payload, now) => PutKeepsOrderIff(s, num, payload, now);
    case Tick(now) => TickKeepsOrder(s, now);
    case Retune(_) =>
  }

  /** Exactly when the Rust resequencer keeps order: the deliveries of a run, and of the run cut
      short anywhere and followed by one tick at any time, are strictly increasing if and only if
      every packet of the run met the guard when it came in. */
  lemma {:induction false} RunInOrderIff<T>(s: State<T>, evs: seq<Event<T>>)
    requires Valid(s)
    ensures Guarded(s, evs) <==> forall k: nat, later :: k <= |evs| ==> InOrderAfter(s, evs, k, later)
    decreases |evs|
  {
    if Guarded(s, evs) {
      forall k: nat, later | k <= |evs|
        ensures InOrderAfter(s, evs, k, later)
      {
        GuardedRunStaysValid(s, evs, k);
        TickKeepsOrder(Run(s, evs[..k]), later);
      }
    } else if evs[0].Arrive? && !Guard(s, evs[0].num) {
      var later := evs[0].now + s.timeout + 1;
      UnguardedPutBreaksOrder(s, evs[0].num, evs[0].payload, evs[0].now, later);
      assert evs[..1][1..] == [];
      assert Run(s, evs[..1]) == Step(s, evs[0]);
      assert !InOrderAfter(s, evs, 1, later);
    } else {
      var t := Step(s, evs[0]);
      StepKeepsOrder(s, evs[0]);
      RunInOrderIff(t, evs[1..]);
      var k: nat, later :| k <= |evs[1..]| && !InOrderAfter(t, evs[1..], k, later);
      assert evs[..k + 1][1..] == evs[1..][..k];
      assert !InOrderAfter(s, evs, k + 1, later);
    }
  }

  // ---------- Refinement of the reordering machine, exactly under the guard ----------

  /** The number a call takes in. */
  ghost function Taken<T>(s: State<T>, ev: Event<T>): set<nat> {
    if ev.Arrive? && s.core.next <= ev.num then {ev.num} else {}
  }

  ghost function Accepted<T>(s: State<T>, evs: seq<Event<T>>): set<nat>
    decreases |evs|
  {
    if evs == [] then {} else Taken(s, evs[0]) + Accepted(Step(s, evs[0]), evs[1..])
  }

  lemma {:induction false} RoomRefines<T>(c: Core<T>, capacity: nat) returns (actions: seq<Action<T>>)
    requires Ordered(c) && c.next !in c.buf
    ensures Steps(c, actions, MakeRoom(c, capacity)) && AcceptedBy(actions) == {}
  {
    actions := [];
    if |c.buf| >= capacity && c.buf != map[] {
      ForceHeadSteps(c);
      actions := JumpActions(ForceHead(c).next - Lowest(c.buf));
    }
  }

  lemma {:induction false} JumpActions<T>(n: nat) returns (actions: seq<Action<T>>)
    ensures actions == [Skip] + Delivers(n) && AcceptedBy(actions) == {}
  {
    actions := [Skip] + Delivers(n);
    assert actions[1..] == Delivers(n);
    DeliversAcceptNothing<T>(n);
  }

  lemma {:induction false} StoreRefines<T>(c: Core<T>, num: nat, payload: T, now: int) returns (actions: seq<Action<T>>)
    requires c.next <= num
    ensures Steps(c, actions, Release(Store(c, num, payload, now)))
    ensures AcceptedBy(actions) == {num}
  {
    var d := Store(c, num, payload, now);
    ReleaseSteps(d);
    var n := Release(d).next - d.next;
    var accept := [Accept(num, Stored(payload, now))];
    SingleStep(c, accept[0]);
    StepsCompose(c, accept, d, Delivers(n), Release(d));
    AcceptedByCompose(accept, Delivers(n));
    DeliversAcceptNothing<T>(n);
    actions := accept + Delivers(n);
  }

  lemma {:induction false} GuardedPutRefines<T>(s: State<T>, num: nat, payload: T, now: int)
        returns (actions: seq<Action<T>>)
    requires Valid(s) && Guard(s, num)
    ensures Steps(s.core, actions, AfterPut(s, num, payload, now).core)
    ensures AcceptedBy(actions) == Taken(s, Arrive(num, payload, now))
  {
    if num < s.core.next {
      actions := [];
    } else {
      var room := MakeRoom(s.core, s.capacity);
      var first := RoomRefines(s.core, s.capacity);
      var second := StoreRefines(room, num, payload, now);
      actions := first + second;
      StepsCompose(s.core, first, room, second, AfterPut(s, num, payload, now).core);
      AcceptedByCompose(first, second);
    }
  }

  ghost predicate CanReach<T(!new)>(c: Core<T>, d: Core<T>) {
    exists actions :: Steps(c, actions, d)
  }

  /** A call is a run of the reordering machine if and only if it meets the guard. */
  lemma {:induction false} PutRefinesIff<T(!new)>(s: State<T>, num: nat, payload: T, now: int)
    requires Valid(s)
    ensures Guard(s, num) <==> CanReach(s.core, AfterPut(s, num, payload, now).core)
  {
    var t := AfterPut(s, num, payload, now);
    if Guard(s, num) {
      var actions := GuardedPutRefines(s, num, payload, now);
    } else {
      PutKeepsOrderIff(s, num, payload, now);
      var c := Store(MakeRoom(s.core, s.capacity), num, payload, now);
      ReleaseMeaning(c);
      forall actions | Steps(s.core, actions, t.core)
        ensures false
      {
        MachineKeepsOrder(s.core, actions, t.core);
      }
    }
  }

  lemma {:induction false} GuardedStepRefines<T>(s: State<T>, ev: Event<T>) returns (actions: seq<Action<T>>)
    requires Valid(s) && (ev.Arrive? ==> Guard(s, ev.num))
    ensures Valid(Step(s, ev))
    ensures Steps(s.core, actions, Step(s, ev).core) && AcceptedBy(actions) == Taken(s, ev)
  {
    StepKeepsOrder(s, ev);
    match ev
    case Arrive(num, payload, now) => actions := GuardedPutRefines(s, num, payload, now);
    case Tick(now) =>
      actions := [];
      if Expired(s, now) {
        ForceHeadSteps(s.core);
        actions := JumpActions(ForceHead(s.core).next - Lowest(s.core.buf));
      }
    case Retune(_) => actions := [];
  }

  lemma {:induction false} GuardedRunSteps<T>(s: State<T>, evs: seq<Event<T>>) returns (actions: seq<Action<T>>)
    requires Valid(s) && Guarded(s, evs)
    ensures Steps(s.core, actions, Run(s, evs).core) && AcceptedBy(actions) == Accepted(s, evs)
    decreases |evs|
  {
    if evs == [] {
      actions := [];
    } else {
      var first := GuardedStepRefines(s, evs[0]);
      var rest := GuardedRunSteps(Step(s, evs[0]), evs[1..]);
      actions := first + rest;
      StepsCompose(s.core, first, Step(s, evs[0]).core, rest, Run(s, evs).core);
      AcceptedByCompose(first, rest);
    }
  }

  /** A guarded run is a run of the reordering machine, so it inherits all that the machine keeps. */
  lemma {:induction false} GuardedRunRefines<T>(s: State<T>, evs: seq<Event<T>>) returns (actions: seq<Action<T>>)
    requires Valid(s) && Guarded(s, evs)
    ensures var e := Run(s, evs);
      && Steps(s.core, actions, e.core)
      && InOrder(e.core.log) && s.core.next <= e.core.next
      && Known(e.core) == Known(s.core) + Accepted(s, evs) && Delivered(e.core) !! e.core.buf.Keys
  {
    actions := GuardedRunSteps(s, evs);
    MachineKeepsOrder(s.core, actions, Run(s, evs).core);
  }

  // ---------- Memory bound, guarded or not ----------

  lemma {:induction false} ReleaseNeverGrows<T>(c: Core<T>)
    ensures Release(c).buf.Keys <= c.buf.Keys && |Release(c).buf| <= |c.buf|
    ensures c.next in c.buf ==> |Release(c).buf| < |c.buf|
    decreases |c.buf|
  {
    if c.next in c.buf {
      assert (c.buf - {c.next}).Keys == c.buf.Keys - {c.next};
      ReleaseNeverGrows(Advance(c));
    }
  }

  ghost predicate WithinCapacity<T>(s: State<T>) {
    |s.core.buf| <= (if s.capacity == 0 then 1 else s.capacity)
  }

  lemma {:induction false} JumpShrinks<T>(c: Core<T>)
    requires c.buf != map[]
    ensures |ForceHead(c).buf| < |c.buf|
  {
    ReleaseNeverGrows(c.(next := Lowest(c.buf)));
  }

  lemma {:induction false} PutStaysWithinCapacity<T>(s: State<T>, num: nat, payload: T, now: int)
    requires WithinCapacity(s)
    ensures WithinCapacity(AfterPut(s, num, payload, now))
  {
    if s.core.buf != map[] {
      JumpShrinks(s.core);
    }
    var room := MakeRoom(s.core, s.capacity);
    var c := Store(room, num, payload, now);
    assert c.buf.Keys == room.buf.Keys + {num};
    ReleaseNeverGrows(c);
  }

  /** The buffer never holds more than its cap, or one packet if the cap is zero. */
  lemma {:induction false} RunStaysWithinCapacity<T>(s: State<T>, evs: seq<Event<T>>)
    requires WithinCapacity(s)
    ensures WithinCapacity(Run(s, evs))
    decreases |evs|
  {
    if evs != [] {
      match evs[0] {
        case Arrive(num, payload, now) => PutStaysWithinCapacity(s, num, payload, now);
        case Tick(now) =>
          if Expired(s, now) {
            JumpShrinks(s.core);
          }
        case Retune(_) =>
      }
      RunStaysWithinCapacity(Step(s, evs[0]), evs[1..]);
    }
  }

  lemma {:induction false} ReleasesPair<T>(num: nat, first: Stored<T>, second: Stored<T>)
    ensures Release(Core(num, map[num := first, num + 1 := second], []))
      == Core(num + 2, map[], [Packet(num, first.payload), Packet(num + 1, second.payload)])
  {
    var c := Core(num, map[num := first, num + 1 := second], []);
    var d := Core(num + 1, map[num + 1 := second], [Packet(num, first.payload)]);
    var e: Core<T> := Core(num + 2, map[], [Packet(num, first.payload), Packet(num + 1, second.payload)]);
    assert c.buf - {num} == d.buf && d.buf - {num + 1} == e.buf;
    assert Advance(c) == d && Advance(d) == e;
    assert Release(c) == Release(d) && Release(d) == Release(e) && Release(e) == e;
  }

  /** A packet alone below the cursor comes out when the head is flushed. */
  lemma {:induction false} StrandedComesOut<T>(next: nat, num: nat, item: Stored<T>, log: seq<Packet<T>>)
    ensures ForceHead(Core(next, map[num := item], log)) == Core(num + 1, map[], log + [Packet(num, item.payload)])
  {
    var stranded := map[num := item];
    assert num in stranded && Lowest(stranded) == num;
    var c := Core(num, stranded, log);
    assert stranded - {num} == map[];
    var d: Core<T> := Core(num + 1, map[], log + [Packet(num, item.payload)]);
    assert Advance(c) == d;
    assert Release(c) == Release(d) && Release(d) == d;
  }

  ghost function FullPair<T>(next: nat, num: nat, x: T, y: T, since: int): (s: State<T>) {
    State(Core(next, map[num := Stored(x, since), num + 1 := Stored(y, since)], []), BASELINE_TIMEOUT, 2)
  }

  lemma {:induction false} DuplicateIsStranded<T>(next: nat, num: nat, x: T, y: T, since: int, now: int)
    requires next < num
    ensures var s := FullPair(next, num, x, y, since);
      && Valid(s) && !Guard(s, num)
      && AfterPut(s, num, x, now).core
         == Core(num + 2, map[num := Stored(x, now)], [Packet(num, x), Packet(num + 1, y)])
  {
    var buf := map[num := Stored(x, since), num + 1 := Stored(y, since)];
    assert buf.Keys == {num, num + 1} && num in buf && Lowest(buf) == num;
    ReleasesPair(num, Stored(x, since), Stored(y, since));
  }

  /** The guard is needed.  Cap 2, the cursor behind a gap, two packets held: the lower one comes in
      again, the forced flush hands over both and moves the cursor past them, and the duplicate is then
      stored below it.  The next expired tick hands it over a second time, out of order, and moves the
      cursor back. */
  lemma {:induction false} DuplicateAtCapacityIsDeliveredTwice<T>(next: nat, num: nat, x: T, y: T, since: int, now: int,
        later: int)
    requires next < num && later - now > BASELINE_TIMEOUT
    ensures var s := FullPair(next, num, x, y, since);
      && Valid(s) && !Guard(s, num)
      && AfterTick(AfterPut(s, num, x, now), later).core
         == Core(num + 1, map[], [Packet(num, x), Packet(num + 1, y), Packet(num, x)])
  {
    var stranded, log := map[num := Stored(x, now)], [Packet(num, x), Packet(num + 1, y)];
    DuplicateIsStranded(next, num, x, y, since, now);
    assert num in stranded && Lowest(stranded) == num;
    StrandedComesOut(num + 2, num, Stored(x, now), log);
  }
}
