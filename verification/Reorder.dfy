/** The reordering machine that both resequencers refine.

    A core holds the next number to hand over, the packets that arrived ahead of it,
    and the log of everything handed to the callback so far.  It moves by three actions only:
    accept a packet that is not late, deliver the packet at the cursor, and skip a gap by moving
    the cursor up to the lowest packet held.
 */
module Reorder {

  /** A payload waiting for its turn, with the clock reading taken when it was stored. */
  datatype Stored<T> = Stored(payload: T, since: int)

  /** One call of the delivery callback. */
  datatype Packet<T> = Packet(num: nat, payload: T)

  datatype Core<T> = Core(next: nat, buf: map<nat, Stored<T>>, log: seq<Packet<T>>)

  datatype Action<T> = Accept(num: nat, item: Stored<T>) | Deliver | Skip

  /** The least key of a nonempty map: the head of a heap whose keys are distinct, and the first
      entry of an ordered map. */
  ghost function Lowest<V>(m: map<nat, V>): (k: nat)
    requires m != map[]
    ensures k in m && forall j :: j in m ==> k <= j
  {
    assert exists j :: j in m;
    var j :| j in m;
    LowestExists(m, j);
    var k :| k in m && forall j :: j in m ==> k <= j;
    k
  }

  lemma {:induction false} LowestExists<V>(m: map<nat, V>, bound: nat)
    requires bound in m
    ensures exists k :: k in m && forall j :: j in m ==> k <= j
    decreases bound
  {
    if j :| j in m && j < bound {
      LowestExists(m, j);
    }
  }

  /** The head of a heap, or the first entry of an ordered map, by its contract. */
  method FindLowest<V>(m: map<nat, V>) returns (k: nat)
    requires |m| > 0
    ensures k == Lowest(m)
  {
    ghost var low := Lowest(m);
    k :| k in m.Keys && forall j :: j in m.Keys ==> k <= j;
  }

  ghost predicate Enabled<T>(c: Core<T>, a: Action<T>) {
    match a
    case Accept(num, _) => c.next <= num
    case Deliver => c.next in c.buf
    case Skip => c.buf != map[] && c.next < Lowest(c.buf)
  }

  ghost function Apply<T>(c: Core<T>, a: Action<T>): Core<T>
    requires Enabled(c, a)
  {
    match a
    case Accept(num, item) => c.(buf := c.buf[num := item])
    case Deliver => Advance(c)
    case Skip => c.(next := Lowest(c.buf))
  }

  /** Hands over the packet at the cursor. */
  ghost function Advance<T>(c: Core<T>): Core<T>
    requires c.next in c.buf
  {
    Core(c.next + 1, c.buf - {c.next}, c.log + [Packet(c.next, c.buf[c.next].payload)])
  }

  /** The machine can go from c to d by the given actions, each enabled when it is taken. */
  ghost predicate Steps<T>(c: Core<T>, actions: seq<Action<T>>, d: Core<T>)
    decreases |actions|
  {
    if actions == [] then c == d
    else Enabled(c, actions[0]) && Steps(Apply(c, actions[0]), actions[1..], d)
  }

  lemma {:induction false} SingleStep<T>(c: Core<T>, a: Action<T>)
    requires Enabled(c, a)
    ensures Steps(c, [a], Apply(c, a))
    ensures AcceptedBy([a]) == if a.Accept? then {a.num} else {}
  {
    assert [a][1..] == [];
    assert AcceptedBy([a]) == (if a.Accept? then {a.num} else {}) + AcceptedBy([a][1..]);
  }

  lemma {:induction false} StepsCompose<T>(c: Core<T>, first: seq<Action<T>>, d: Core<T>, second: seq<Action<T>>,
        e: Core<T>)
    requires Steps(c, first, d) && Steps(d, second, e)
    ensures Steps(c, first + second, e)
    decreases |first|
  {
    if first == [] {
      assert first + second == second;
    } else {
      assert (first + second)[1..] == first[1..] + second;
      StepsCompose(Apply(c, first[0]), first[1..], d, second, e);
    }
  }

  // ---------- What the machine keeps ----------

  /** Numbers in the log strictly increase: order, and no number twice. */
  ghost predicate InOrder<T>(log: seq<Packet<T>>) {
    forall i, j :: 0 <= i < j < |log| ==> log[i].num < log[j].num
  }

  ghost predicate Ordered<T>(c: Core<T>) {
    && InOrder(c.log)
    && (forall i :: 0 <= i < |c.log| ==> c.log[i].num < c.next)
    && (forall k :: k in c.buf ==> c.next <= k)
  }

  ghost function Delivered<T>(c: Core<T>): set<nat> {
    set i | 0 <= i < |c.log| :: c.log[i].num
  }

  /** The numbers taken in: handed over already, or held. */
  ghost function Known<T>(c: Core<T>): set<nat> {
    Delivered(c) + c.buf.Keys
  }

  ghost function AcceptedBy<T>(actions: seq<Action<T>>): set<nat> {
    if actions == [] then {}
    else (if actions[0].Accept? then {actions[0].num} else {}) + AcceptedBy(actions[1..])
  }

  lemma {:induction false} ApplyKeeps<T>(c: Core<T>, a: Action<T>)
    requires Ordered(c) && Enabled(c, a)
    ensures Ordered(Apply(c, a))
    ensures c.next <= Apply(c, a).next && c.log <= Apply(c, a).log
    ensures Known(Apply(c, a)) == Known(c) + (if a.Accept? then {a.num} else {})
    ensures Delivered(Apply(c, a)) !! Apply(c, a).buf.Keys
  {
    var d := Apply(c, a);
    if a.Deliver? {
      assert d.log[|c.log|].num == c.next;
      assert forall i :: 0 <= i < |c.log| ==> d.log[i] == c.log[i];
      assert Delivered(d) == Delivered(c) + {c.next};
      assert d.buf.Keys == c.buf.Keys - {c.next};
    } else if a.Accept? {
      assert d.buf.Keys == c.buf.Keys + {a.num};
      assert Delivered(d) == Delivered(c);
    } else {
      assert Delivered(d) == Delivered(c);
    }
  }

  /** Every run of the machine keeps the log in strictly increasing order, never moves the cursor
      back, never rewrites the log, and conserves packets: what was taken in is delivered or held,
      never both, and nothing else is. */
  lemma {:induction false} MachineKeepsOrder<T>(c: Core<T>, actions: seq<Action<T>>, d: Core<T>)
    requires Ordered(c) && Steps(c, actions, d)
    ensures Ordered(d) && c.next <= d.next && c.log <= d.log
    ensures Known(d) == Known(c) + AcceptedBy(actions)
    ensures Delivered(d) !! d.buf.Keys
    decreases |actions|
  {
    if actions == [] {
    } else {
      ApplyKeeps(c, actions[0]);
      MachineKeepsOrder(Apply(c, actions[0]), actions[1..], d);
    }
  }

  ghost predicate AllPackets<T>(c: Core<T>, good: (nat, T) -> bool) {
    && (forall i :: 0 <= i < |c.log| ==> good(c.log[i].num, c.log[i].payload))
    && (forall k :: k in c.buf ==> good(k, c.buf[k].payload))
  }

  /** A payload leaves under the number it came in with: whatever holds of all accepted pairs
      holds of all delivered pairs. */
  lemma {:induction false} MachineKeepsPayloads<T>(c: Core<T>, actions: seq<Action<T>>, d: Core<T>,
        good: (nat, T) -> bool)
    requires Steps(c, actions, d) && AllPackets(c, good)
    requires forall i :: 0 <= i < |actions| && actions[i].Accept? ==> good(actions[i].num, actions[i].item.payload)
    ensures AllPackets(d, good)
    decreases |actions|
  {
    if actions == [] {
    } else {
      assert AllPackets(Apply(c, actions[0]), good);
      MachineKeepsPayloads(Apply(c, actions[0]), actions[1..], d, good);
    }
  }

  // ---------- Releasing the contiguous run at the cursor ----------

  /** Delivers until the number at the cursor is missing. */
  ghost function Release<T>(c: Core<T>): Core<T>
    decreases |c.buf|
  {
    if c.next in c.buf then
      assert (c.buf - {c.next}).Keys == c.buf.Keys - {c.next};
      Release(Advance(c))
    else c
  }

  lemma {:induction false} ReleaseTakesRun<T>(c: Core<T>)
    ensures var d := Release(c);
      && c.next <= d.next && d.next !in c.buf
      && (forall k :: c.next <= k < d.next ==> k in c.buf)
      && (forall k :: k in d.buf <==> k in c.buf && !(c.next <= k < d.next))
      && (forall k :: k in d.buf ==> d.buf[k] == c.buf[k])
    decreases |c.buf|
  {
    if c.next in c.buf {
      assert (c.buf - {c.next}).Keys == c.buf.Keys - {c.next};
      var e := Advance(c);
      ReleaseTakesRun(e);
      assert Release(c) == Release(e);
      assert forall k :: k in e.buf <==> k in c.buf && k != c.next;
    }
  }

  lemma {:induction false} ReleaseLogsRun<T>(c: Core<T>, i: nat)
    ensures var d := Release(c);
      && c.log <= d.log && |d.log| == |c.log| + (d.next - c.next)
      && (c.next <= i < d.next ==> i in c.buf && d.log[|c.log| + (i - c.next)] == Packet(i, c.buf[i].payload))
    decreases |c.buf|
  {
    if c.next in c.buf {
      assert (c.buf - {c.next}).Keys == c.buf.Keys - {c.next};
      var e := Advance(c);
      ReleaseLogsRun(e, i);
      assert e.log[|c.log|] == Packet(c.next, c.buf[c.next].payload);
    }
  }

  /** What a release does, said without its loop: it hands over exactly the longest run of
      consecutive numbers at the cursor, in order, with the payloads held under them. */
  lemma {:induction false} ReleaseMeaning<T>(c: Core<T>)
    ensures var d := Release(c);
      && c.next <= d.next && d.next !in c.buf
      && (forall k :: c.next <= k < d.next ==> k in c.buf)
      && (forall k :: k in d.buf <==> k in c.buf && !(c.next <= k < d.next))
      && (forall k :: k in d.buf ==> d.buf[k] == c.buf[k])
      && c.log <= d.log && |d.log| == |c.log| + (d.next - c.next)
      && (forall i :: c.next <= i < d.next ==> d.log[|c.log| + (i - c.next)] == Packet(i, c.buf[i].payload))
  {
    ReleaseTakesRun(c);
    ReleaseLogsRun(c, c.next);
    forall i | c.next <= i < Release(c).next
      ensures Release(c).log[|c.log| + (i - c.next)] == Packet(i, c.buf[i].payload)
    {
      ReleaseLogsRun(c, i);
    }
  }

  /** d is c after handing over exactly the run of consecutive numbers that starts at its cursor. */
  ghost predicate HandsOver<T>(c: Core<T>, d: Core<T>) {
    && c.next <= d.next && d.next !in c.buf
    && (forall k :: c.next <= k < d.next ==> k in c.buf)
    && d.buf.Keys == (set k | k in c.buf && !(c.next <= k < d.next))
    && (forall k :: k in d.buf ==> d.buf[k] == c.buf[k])
    && c.log <= d.log && |d.log| == |c.log| + (d.next - c.next)
    && (forall i :: c.next <= i < d.next ==> d.log[|c.log| + (i - c.next)] == Packet(i, c.buf[i].payload))
  }

  lemma {:induction false} ReleaseHandsOver<T>(c: Core<T>)
    ensures HandsOver(c, Release(c))
  {
    ReleaseMeaning(c);
  }

  ghost function Delivers<T>(n: nat): seq<Action<T>> {
    seq(n, i => Deliver)
  }

  lemma {:induction false} ReleaseSteps<T>(c: Core<T>)
    ensures c.next <= Release(c).next
    ensures Steps(c, Delivers(Release(c).next - c.next), Release(c))
    decreases |c.buf|
  {
    if c.next in c.buf {
      assert (c.buf - {c.next}).Keys == c.buf.Keys - {c.next};
      ReleaseSteps(Advance(c));
      var n := Release(c).next - c.next;
      assert Delivers<T>(n)[1..] == Delivers<T>(n - 1);
    }
  }

  lemma {:induction false} DeliversAcceptNothing<T>(n: nat)
    ensures AcceptedBy(Delivers<T>(n)) == {}
  {
    if n > 0 {
      assert Delivers<T>(n)[1..] == Delivers<T>(n - 1);
      DeliversAcceptNothing<T>(n - 1);
    }
  }

  lemma {:induction false} AcceptedByCompose<T>(first: seq<Action<T>>, second: seq<Action<T>>)
    ensures AcceptedBy(first + second) == AcceptedBy(first) + AcceptedBy(second)
  {
    if first == [] {
      assert first + second == second;
    } else {
      assert (first + second)[1..] == first[1..] + second;
      AcceptedByCompose(first[1..], second);
    }
  }
}
