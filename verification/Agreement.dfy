/** The Python and the Rust resequencer hand over the same packets. */
module Agreement {
  import opened Reorder
  import Receiver
  import Resequencing

  /** Equal but for the clock readings of the packets held. */
  ghost predicate SameButForTime<T>(c: Core<T>, d: Core<T>) {
    && c.next == d.next && c.log == d.log && c.buf.Keys == d.buf.Keys
    && forall k :: k in c.buf ==> c.buf[k].payload == d.buf[k].payload
  }

  lemma {:induction false} ReleaseAgrees<T>(c: Core<T>, d: Core<T>)
    requires SameButForTime(c, d)
    ensures SameButForTime(Release(c), Release(d))
    decreases |c.buf|
  {
    if c.next in c.buf {
      assert (c.buf - {c.next}).Keys == c.buf.Keys - {c.next};
      assert (d.buf - {d.next}).Keys == d.buf.Keys - {d.next};
      ReleaseAgrees(Advance(c), Advance(d));
    }
  }

  ghost function PyPutAll<T>(s: Receiver.State<T>, arrivals: seq<Packet<T>>, now: int): Receiver.State<T>
    decreases |arrivals|
  {
    if arrivals == [] then s
    else PyPutAll(Receiver.AfterPut(s, arrivals[0].num, arrivals[0].payload, now), arrivals[1..], now)
  }

  ghost function RustPutAll<T>(s: Resequencing.State<T>, arrivals: seq<Packet<T>>, now: int): Resequencing.State<T>
    decreases |arrivals|
  {
    if arrivals == [] then s
    else RustPutAll(Resequencing.AfterPut(s, arrivals[0].num, arrivals[0].payload, now), arrivals[1..], now)
  }

  ghost predicate Genuine<T>(packets: seq<Packet<T>>, sent: seq<T>) {
    forall i :: 0 <= i < |packets| ==> packets[i].num < |sent| && packets[i].payload == sent[packets[i].num]
  }

  ghost predicate HoldsGenuine<T>(c: Core<T>, sent: seq<T>) {
    forall k :: k in c.buf ==> k < |sent| && c.buf[k].payload == sent[k]
  }

  lemma {:induction false} PutAgrees<T>(p: Receiver.State<T>, r: Resequencing.State<T>, num: nat, payload: T,
        sent: seq<T>, now: int, later: int)
    requires Receiver.Valid(p) && SameButForTime(p.core, r.core) && HoldsGenuine(p.core, sent)
    requires num < |sent| && payload == sent[num] && |r.core.buf| < r.capacity
    ensures var p', r' := Receiver.AfterPut(p, num, payload, now), Resequencing.AfterPut(r, num, payload, later);
      SameButForTime(p'.core, r'.core) && HoldsGenuine(p'.core, sent) && |r'.core.buf| <= |r.core.buf| + 1
  {
    if num < p.core.next {
    } else if num in p.core.buf {
      var c := Resequencing.Store(r.core, num, payload, later);
      assert Release(c) == c;
      assert Resequencing.Store(r.core, num, payload, later).buf.Keys == r.core.buf.Keys;
    } else {
      FreshPutAgrees(p.core, r.core, num, payload, sent, now, later);
    }
  }

  lemma {:induction false} StoresAgree<T>(c: Core<T>, d: Core<T>, num: nat, payload: T, sent: seq<T>, now: int,
        later: int)
    requires SameButForTime(c, d) && HoldsGenuine(c, sent) && num < |sent| && payload == sent[num]
    ensures var c', d' := Receiver.Stash(c, num, payload, now), Resequencing.Store(d, num, payload, later);
      SameButForTime(c', d') && HoldsGenuine(c', sent) && |d'.buf| <= |d.buf| + 1
  {
    assert Resequencing.Store(d, num, payload, later).buf.Keys == d.buf.Keys + {num};
    assert Receiver.Stash(c, num, payload, now).buf.Keys == c.buf.Keys + {num};
  }

  lemma {:induction false} ReleaseKeepsGenuine<T>(c: Core<T>, sent: seq<T>)
    requires HoldsGenuine(c, sent)
    ensures HoldsGenuine(Release(c), sent)
  {
    ReleaseTakesRun(c);
  }

  lemma {:induction false} FreshPutAgrees<T>(c: Core<T>, d: Core<T>, num: nat, payload: T, sent: seq<T>, now: int,
        later: int)
    requires SameButForTime(c, d) && HoldsGenuine(c, sent)
    requires num < |sent| && payload == sent[num]
    ensures var c' := Release(Receiver.Stash(c, num, payload, now));
      var d' := Release(Resequencing.Store(d, num, payload, later));
      SameButForTime(c', d') && HoldsGenuine(c', sent) && |d'.buf| <= |d.buf| + 1
  {
    var c', d' := Receiver.Stash(c, num, payload, now), Resequencing.Store(d, num, payload, later);
    StoresAgree(c, d, num, payload, sent, now, later);
    ReleaseAgrees(c', d');
    ReleaseKeepsGenuine(c', sent);
    Resequencing.ReleaseNeverGrows(d');
  }

  /** On any arrivals of one sent list, in any order and with any duplicates, a Rust buffer with
      room for them ends where the Python buffer ends: same deliveries, same cursor, same packets
      held.  That the one ignores a duplicate and the other replaces it makes no difference. */
  lemma {:induction false} SameDeliveries<T>(p: Receiver.State<T>, r: Resequencing.State<T>, arrivals: seq<Packet<T>>,
        sent: seq<T>, now: int, later: int)
    requires Receiver.Valid(p) && SameButForTime(p.core, r.core)
    requires Genuine(arrivals, sent) && HoldsGenuine(p.core, sent)
    requires |r.core.buf| + |arrivals| <= r.capacity
    ensures SameButForTime(PyPutAll(p, arrivals, now).core, RustPutAll(r, arrivals, later).core)
    decreases |arrivals|
  {
    if arrivals == [] {
    } else {
      var num, payload := arrivals[0].num, arrivals[0].payload;
      PutAgrees(p, r, num, payload, sent, now, later);
      Receiver.PutKeepsInv(p, num, payload, now);
      SameDeliveries(Receiver.AfterPut(p, num, payload, now), Resequencing.AfterPut(r, num, payload, later),
                     arrivals[1..], sent, now, later);
    }
  }
}
