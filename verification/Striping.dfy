/** One direction of the bonded tunnel, end to end: a sender that stamps every payload from one
    counter, a network that loses, repeats and reorders datagrams, and a Python resequencing buffer. */
module Striping {
  import opened Bytes
  import opened Protocol
  import opened Reorder
  import opened Wrappers
  import Receiver
  import ReceiverRuns

  /** sent[i] is the payload that was given number i; wire holds the datagrams in flight. */
  datatype Tunnel = Tunnel(sent: seq<ByteString>, wire: multiset<ByteString>, rx: Receiver.State<ByteString>)

  datatype Move =
    | Send(payload: ByteString, timestamp: nat, path: nat)
    | Lose(datagram: ByteString)
    | Repeat(datagram: ByteString)
    | Arrive(datagram: ByteString, now: int)
    | Round(now: int)

  ghost function Start(): Tunnel {
    Tunnel([], multiset{}, Receiver.Initial())
  }

  /** Only datagrams in flight can be lost, repeated or received; a datagram of anybody else may
      arrive too, as long as it does not open. */
  ghost predicate Possible(aead: Aead, t: Tunnel, m: Move) {
    match m
    case Lose(d) => d in t.wire
    case Repeat(d) => d in t.wire
    case Arrive(d, _) => d in t.wire || UnpackAndDecrypt(aead, d) == None
    case _ => true
  }

  /** Assigning the number and packing: the number is used up even when packing fails. */
  ghost function AfterSend(aead: Aead, t: Tunnel, payload: ByteString, timestamp: nat, path: nat): Tunnel {
    OnWire(t, t.sent + [payload], EncryptAndPack(aead, Envelope(payload, |t.sent|, timestamp, path)))
  }

  ghost function OnWire(t: Tunnel, sent: seq<ByteString>, datagram: Option<ByteString>): Tunnel {
    t.(sent := sent, wire := if datagram.Some? then t.wire + multiset{datagram.value} else t.wire)
  }

  ghost function AfterArrive(aead: Aead, t: Tunnel, d: ByteString, now: int): Tunnel {
    var rest := t.(wire := t.wire - multiset{d});
    match UnpackAndDecrypt(aead, d)
    case None => rest
    case Some(e) => rest.(rx := Receiver.AfterPut(t.rx, e.num, e.payload, now))
  }

  ghost function Next(aead: Aead, timeout: int, t: Tunnel, m: Move): Tunnel {
    match m
    case Send(payload, timestamp, path) => AfterSend(aead, t, payload, timestamp, path)
    case Lose(d) => t.(wire := t.wire - multiset{d})
    case Repeat(d) => t.(wire := t.wire + multiset{d})
    case Arrive(d, now) => AfterArrive(aead, t, d, now)
    case Round(now) => t.(rx := Receiver.AfterRound(t.rx, now, timeout))
  }

  /** The tunnel can go from t to u by these moves. */
  ghost predicate Moves(aead: Aead, timeout: int, t: Tunnel, moves: seq<Move>, u: Tunnel)
    decreases |moves|
  {
    if moves == [] then t == u
    else Possible(aead, t, moves[0]) && Moves(aead, timeout, Next(aead, timeout, t, moves[0]), moves[1..], u)
  }

  // ---------- The two ends ----------

  /** Both the client and the server stamp what they send from one counter. */
  class Sender {
    const aead: Aead
    var nextSeqOut: nat
    ghost var sent: seq<ByteString>

    ghost predicate Valid()
      reads this
    {
      nextSeqOut == |sent|
    }

    constructor (aead: Aead)
      ensures Valid() && this.aead == aead && sent == []
    {
      this.aead := aead;
      nextSeqOut, sent := 0, [];
    }

    /** Without a socket for the link nothing happens.  Otherwise None is a packing error, and its
        number is used up all the same. */
    method SendToVps(hasSocket: bool, payload: ByteString, timestamp: nat, path: nat)
        returns (datagram: Option<ByteString>)
      requires Valid()
      modifies this
      ensures Valid()
      ensures !hasSocket ==> datagram == None && sent == old(sent)
      ensures hasSocket ==> forall t: Tunnel :: t.sent == old(sent) ==>
        AfterSend(aead, t, payload, timestamp, path) == OnWire(t, sent, datagram)
    {
      if !hasSocket {
        return None;
      }
      var num := nextSeqOut;
      nextSeqOut := nextSeqOut + 1;
      sent := sent + [payload];
      datagram := EncryptAndPack(aead, Envelope(payload, num, timestamp, path));
    }

    /** A reply that cannot be framed takes no number. */
    method SendBackToClient(session: nat, data: ByteString, isClose: bool, timestamp: nat, path: nat)
        returns (datagram: Option<ByteString>)
      requires Valid()
      modifies this
      ensures Valid()
      ensures session >= 0x1_0000_0000 ==> datagram == None && sent == old(sent)
      ensures session < 0x1_0000_0000 ==>
        && |sent| == |old(sent)| + 1 && old(sent) <= sent
        && ParseReply(sent[|old(sent)|]) == Some(if isClose then ReplyClose(session) else ReplyData(session, data))
        && (forall t: Tunnel :: t.sent == old(sent) ==>
              AfterSend(aead, t, sent[|old(sent)|], timestamp, path) == OnWire(t, sent, datagram))
    {
      var framed := FrameReply(session, data, isClose);
      if framed.None? {
        return None;
      }
      ParseInvertsReply(session, data, isClose);
      var num := nextSeqOut;
      nextSeqOut := nextSeqOut + 1;
      sent := sent + [framed.value];
      datagram := EncryptAndPack(aead, Envelope(framed.value, num, timestamp, path));
    }
  }

  /** The body of the receive loops: a datagram that does not open is dropped. */
  method ReceiveDatagram(aead: Aead, buffer: Receiver.ResequencingBuffer<ByteString>, datagram: ByteString, now: int)
    requires Receiver.Valid(buffer.Model())
    modifies buffer
    ensures Receiver.Valid(buffer.Model())
    ensures forall t: Tunnel :: t.rx == old(buffer.Model()) ==>
      AfterArrive(aead, t, datagram, now) == t.(wire := t.wire - multiset{datagram}, rx := buffer.Model())
  {
    var envelope := UnpackAndDecrypt(aead, datagram);
    if envelope.Some? {
      buffer.Put(envelope.value.num, envelope.value.payload, now);
    }
  }

  // ---------- What every move keeps ----------

  ghost function FromSender(sent: seq<ByteString>): (nat, ByteString) -> bool {
    (num: nat, payload: ByteString) => num < |sent| && payload == sent[num]
  }

  ghost predicate WireFrom(aead: Aead, wire: multiset<ByteString>, sent: seq<ByteString>) {
    forall d :: d in wire ==> match UnpackAndDecrypt(aead, d)
                              case None => false
                              case Some(e) => e.num < |sent| && e.payload == sent[e.num]
  }

  ghost predicate Sound(aead: Aead, t: Tunnel) {
    Receiver.Valid(t.rx) && AllPackets(t.rx.core, FromSender(t.sent)) && WireFrom(aead, t.wire, t.sent)
  }

  lemma {:induction false} ReceiverKeepsSender(s: Receiver.State<ByteString>, ev: Receiver.Event<ByteString>,
        timeout: int, sent: seq<ByteString>)
    requires Receiver.Valid(s) && AllPackets(s.core, FromSender(sent))
    requires ev.Arrive? ==> ev.num < |sent| && ev.payload == sent[ev.num]
    ensures var t := Receiver.Step(s, ev, timeout);
      && Receiver.Valid(t) && AllPackets(t.core, FromSender(sent))
      && s.core.log <= t.core.log && s.core.next <= t.core.next
  {
    Receiver.StepRefines(s, ev, timeout);
    var actions := Receiver.Actions(s, ev, timeout);
    MachineKeepsOrder(s.core, actions, Receiver.Step(s, ev, timeout).core);
    forall i | 0 <= i < |actions| && actions[i].Accept?
      ensures FromSender(sent)(actions[i].num, actions[i].item.payload)
    {
      Receiver.ActionsAcceptTheArrival(s, ev, timeout, i);
    }
    MachineKeepsPayloads(s.core, actions, Receiver.Step(s, ev, timeout).core, FromSender(sent));
  }

  lemma {:induction false} SendKeepsSound(aead: Aead, t: Tunnel, payload: ByteString, timestamp: nat, path: nat)
    requires Opens(aead) && Sound(aead, t)
    ensures Sound(aead, AfterSend(aead, t, payload, timestamp, path))
  {
    UnpackInvertsPack(aead, Envelope(payload, |t.sent|, timestamp, path));
    assert AllPackets(t.rx.core, FromSender(t.sent + [payload]));
  }

  lemma {:induction false} NextKeepsSound(aead: Aead, timeout: int, t: Tunnel, m: Move)
    requires Opens(aead) && Sound(aead, t) && Possible(aead, t, m)
    ensures var u := Next(aead, timeout, t, m);
      Sound(aead, u) && t.sent <= u.sent && t.rx.core.log <= u.rx.core.log && t.rx.core.next <= u.rx.core.next
  {
    match m
    case Send(payload, timestamp, path) =>
      SendKeepsSound(aead, t, payload, timestamp, path);
    case Arrive(d, now) =>
      match UnpackAndDecrypt(aead, d) {
        case None =>
        case Some(e) => ReceiverKeepsSender(t.rx, Receiver.Arrive(e.num, e.payload, now), timeout, t.sent);
      }
    case Round(now) => ReceiverKeepsSender(t.rx, Receiver.Tick(now), timeout, t.sent);
    case Lose(_) =>
    case Repeat(_) =>
  }

  lemma {:induction false} MovesKeepSound(aead: Aead, timeout: int, t: Tunnel, moves: seq<Move>, u: Tunnel)
    requires Opens(aead) && Sound(aead, t) && Moves(aead, timeout, t, moves, u)
    ensures Sound(aead, u) && t.sent <= u.sent && t.rx.core.log <= u.rx.core.log && t.rx.core.next <= u.rx.core.next
    decreases |moves|
  {
    if moves == [] {
    } else {
      NextKeepsSound(aead, timeout, t, moves[0]);
      MovesKeepSound(aead, timeout, Next(aead, timeout, t, moves[0]), moves[1..], u);
    }
  }

  // ---------- End-to-end order ----------

  ghost predicate IsSubsequence<T>(xs: seq<T>, ys: seq<T>)
    decreases |ys|
  {
    xs == [] ||
    (ys != [] && (IsSubsequence(xs, ys[1..]) || (xs[0] == ys[0] && IsSubsequence(xs[1..], ys[1..]))))
  }

  ghost function Payloads<T>(log: seq<Packet<T>>): seq<T> {
    seq(|log|, i requires 0 <= i < |log| => log[i].payload)
  }

  /** A log in strictly increasing order of number, whose payloads are those of the sent list under
      the same number, reads off a subsequence of the sent list from number base on. */
  lemma {:induction false} OrderedLogIsSubsequence<T>(log: seq<Packet<T>>, sent: seq<T>, base: nat)
    requires InOrder(log) && base <= |sent|
    requires forall i :: 0 <= i < |log| ==> base <= log[i].num < |sent| && log[i].payload == sent[log[i].num]
    ensures IsSubsequence(Payloads(log), sent[base..])
    decreases |sent| - base
  {
    if log != [] {
      assert base <= log[0].num;
      assert sent[base..][1..] == sent[base + 1..];
      if log[0].num == base {
        OrderedLogIsSubsequence(log[1..], sent, base + 1);
        assert Payloads(log)[1..] == Payloads(log[1..]);
      } else {
        OrderedLogIsSubsequence(log, sent, base + 1);
      }
    }
  }

  /** End-to-end order.  Whatever is sent, lost, repeated, reordered, forged or timed out, in any
      interleaving: the payloads handed to the callback are a subsequence of the payloads in the
      order their numbers were assigned, each number at most once, and between any two moments the
      log only grows and the cursor never moves back. */
  lemma {:induction false} EndToEndOrder(aead: Aead, timeout: int, before: seq<Move>, t: Tunnel, after: seq<Move>,
        u: Tunnel)
    requires Opens(aead)
    requires Moves(aead, timeout, Start(), before, t) && Moves(aead, timeout, t, after, u)
    ensures IsSubsequence(Payloads(u.rx.core.log), u.sent)
    ensures InOrder(u.rx.core.log)
    ensures t.rx.core.log <= u.rx.core.log && t.rx.core.next <= u.rx.core.next
  {
    MovesKeepSound(aead, timeout, Start(), before, t);
    MovesKeepSound(aead, timeout, t, after, u);
    var log := u.rx.core.log;
    forall i | 0 <= i < |log|
      ensures log[i].num < |u.sent| && log[i].payload == u.sent[log[i].num]
    {
      assert FromSender(u.sent)(log[i].num, log[i].payload);
    }
    OrderedLogIsSubsequence(log, u.sent, 0);
    assert u.sent[0..] == u.sent;
  }

  // ---------- What sending puts on the wire, and what the buffer is fed ----------

  /** A send adds one datagram to the wire, which opens to exactly the payload, the count of payloads
      sent before, the timestamp and the path; unless one of the three numbers does not fit its field. */
  lemma {:induction false} SendAddsOneDatagram(aead: Aead, t: Tunnel, payload: ByteString, timestamp: nat, path: nat)
      returns (datagram: ByteString)
    requires Opens(aead)
    ensures var u := AfterSend(aead, t, payload, timestamp, path);
      && u.sent == t.sent + [payload] && u.rx == t.rx
      && if |t.sent| < 0x1_0000_0000 && timestamp < 0x1_0000_0000_0000_0000 && path < 0x1_0000_0000
         then u.wire == t.wire + multiset{datagram}
           && UnpackAndDecrypt(aead, datagram) == Some(Envelope(payload, |t.sent|, timestamp, path))
         else u.wire == t.wire
  {
    var e := Envelope(payload, |t.sent|, timestamp, path);
    UnpackInvertsPack(aead, e);
    datagram := if InRange(e) then EncryptAndPack(aead, e).value else [];
  }

  /** The arrivals that open, as the buffer sees them, and the rounds of its flush task. */
  ghost function Fed(aead: Aead, moves: seq<Move>): seq<Receiver.Event<ByteString>> {
    if moves == [] then []
    else
      var rest := Fed(aead, moves[1..]);
      match moves[0]
      case Arrive(d, now) =>
        (match UnpackAndDecrypt(aead, d)
         case None => rest
         case Some(e) => [Receiver.Arrive(e.num, e.payload, now)] + rest)
      case Round(now) => [Receiver.Tick(now)] + rest
      case _ => rest
  }

  /** Nothing else happens to the buffer, and nothing of it is left out. */
  lemma {:induction false} TunnelRunsTheBuffer(aead: Aead, timeout: int, t: Tunnel, moves: seq<Move>, u: Tunnel)
    requires Moves(aead, timeout, t, moves, u)
    ensures u.rx == Receiver.Run(t.rx, Fed(aead, moves), timeout)
    decreases |moves|
  {
    if moves != [] {
      var next, evs, rest := Next(aead, timeout, t, moves[0]), Fed(aead, moves), Fed(aead, moves[1..]);
      TunnelRunsTheBuffer(aead, timeout, next, moves[1..], u);
      if evs != rest {
        assert evs[1..] == rest && Receiver.Run(t.rx, evs, timeout)
          == Receiver.Run(Receiver.Step(t.rx, evs[0], timeout), rest, timeout);
      }
    }
  }

  // ---------- Lossless exactness ----------

  ghost predicate FedIsGenuine(evs: seq<Receiver.Event<ByteString>>, sent: seq<ByteString>) {
    forall i :: 0 <= i < |evs| ==> ReceiverRuns.Genuine(evs[i], sent)
  }

  lemma {:induction false} EverythingFedIsGenuine(aead: Aead, timeout: int, t: Tunnel, moves: seq<Move>, u: Tunnel)
    requires Opens(aead) && Sound(aead, t) && Moves(aead, timeout, t, moves, u)
    ensures FedIsGenuine(Fed(aead, moves), u.sent)
    decreases |moves|
  {
    if moves != [] {
      var next := Next(aead, timeout, t, moves[0]);
      NextKeepsSound(aead, timeout, t, moves[0]);
      MovesKeepSound(aead, timeout, next, moves[1..], u);
      EverythingFedIsGenuine(aead, timeout, next, moves[1..], u);
    }
  }

  /** The datagram of number k arrives: one that some send of the k-th payload packed. */
  ghost predicate ArrivesInOne(aead: Aead, m: Move, k: nat, payload: ByteString) {
    m.Arrive? && exists timestamp, path ::
      EncryptAndPack(aead, Envelope(payload, k, timestamp, path)) == Some(m.datagram)
  }

  lemma {:induction false} ArrivalIsFed(aead: Aead, moves: seq<Move>, i: nat, k: nat, payload: ByteString)
    requires Opens(aead) && i < |moves| && ArrivesInOne(aead, moves[i], k, payload)
    ensures ReceiverRuns.Arrives(Fed(aead, moves), k)
    decreases |moves|
  {
    var evs, rest := Fed(aead, moves), Fed(aead, moves[1..]);
    if i == 0 {
      var timestamp, path :|
        EncryptAndPack(aead, Envelope(payload, k, timestamp, path)) == Some(moves[0].datagram);
      UnpackInvertsPack(aead, Envelope(payload, k, timestamp, path));
      assert evs[0].Arrive? && evs[0].num == k;
    } else {
      ArrivalIsFed(aead, moves[1..], i - 1, k, payload);
      var j :| 0 <= j < |rest| && rest[j].Arrive? && rest[j].num == k;
      assert evs[j + (|evs| - |rest|)] == rest[j];
    }
  }

  /** Lossless exactness of the tunnel.  If a datagram of every number arrives at least once, in any order
      and with any repetitions, and no round skips, the payloads handed to the callback are exactly the
      payloads sent, and nothing is left in the buffer. */
  lemma {:induction false} LosslessTunnel(aead: Aead, timeout: int, moves: seq<Move>, u: Tunnel)
    requires Opens(aead) && Moves(aead, timeout, Start(), moves, u)
    requires forall k :: 0 <= k < |u.sent| ==>
      exists i :: 0 <= i < |moves| && ArrivesInOne(aead, moves[i], k, u.sent[k])
    requires ReceiverRuns.NoSkips(Receiver.Initial(), Fed(aead, moves), timeout)
    ensures Payloads(u.rx.core.log) == u.sent && u.rx.core.buf == map[]
  {
    var evs := Fed(aead, moves);
    TunnelRunsTheBuffer(aead, timeout, Start(), moves, u);
    EverythingFedIsGenuine(aead, timeout, Start(), moves, u);
    forall k | 0 <= k < |u.sent|
      ensures ReceiverRuns.Arrives(evs, k)
    {
      var i :| 0 <= i < |moves| && ArrivesInOne(aead, moves[i], k, u.sent[k]);
      ArrivalIsFed(aead, moves, i, k, u.sent[k]);
    }
    ReceiverRuns.LosslessExactness(evs, timeout, u.sent);
    assert u.rx.core.log == ReceiverRuns.InSequence(u.sent);
  }

  lemma {:induction false} FedInWindow(aead: Aead, moves: seq<Move>, start: int, timeout: int)
    requires forall i :: 0 <= i < |moves| && (moves[i].Arrive? || moves[i].Round?) ==>
      start <= moves[i].now < start + timeout
    ensures forall i :: 0 <= i < |Fed(aead, moves)| ==> start <= Fed(aead, moves)[i].now < start + timeout
    decreases |moves|
  {
    if moves != [] {
      FedInWindow(aead, moves[1..], start, timeout);
    }
  }

  /** The same from what can be seen outside: all arrivals and rounds fall within one flush timeout. */
  lemma {:induction false} LosslessBurst(aead: Aead, timeout: int, moves: seq<Move>, u: Tunnel, start: int)
    requires Opens(aead) && Moves(aead, timeout, Start(), moves, u)
    requires forall k :: 0 <= k < |u.sent| ==>
      exists i :: 0 <= i < |moves| && ArrivesInOne(aead, moves[i], k, u.sent[k])
    requires forall i :: 0 <= i < |moves| && (moves[i].Arrive? || moves[i].Round?) ==>
      start <= moves[i].now < start + timeout
    ensures Payloads(u.rx.core.log) == u.sent && u.rx.core.buf == map[]
  {
    FedInWindow(aead, moves, start, timeout);
    ReceiverRuns.WindowAvoidsSkips(Receiver.Initial(), Fed(aead, moves), timeout, start);
    LosslessTunnel(aead, timeout, moves, u);
  }
}
