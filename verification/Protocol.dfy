/** The wire format (aetherbond/common/protocol.py) and the tunnel frames it carries
    (aetherbond/client/vpn.py, aetherbond/server/router.py). */
module Protocol {
  import opened Bytes
  import opened Wrappers

  const HEADER_SIZE: nat := 16

  /** An authenticated cipher, seen from outside: nonce, text, associated data. */
  datatype Aead = Aead(seal: (ByteString, ByteString, ByteString) -> ByteString,
                       open: (ByteString, ByteString, ByteString) -> Option<ByteString>)

  /** What is sealed opens again under the same nonce and associated data. */
  ghost predicate Opens(aead: Aead) {
    forall nonce, text, data :: aead.open(nonce, aead.seal(nonce, text, data), data) == Some(text)
  }

  /** Nothing else opens. */
  ghost predicate Authenticates(aead: Aead) {
    forall nonce, box, data ::
      aead.open(nonce, box, data).Some? ==> box == aead.seal(nonce, aead.open(nonce, box, data).value, data)
  }

  datatype Envelope = Envelope(payload: ByteString, num: nat, timestamp: nat, path: nat)

  predicate InRange(e: Envelope) {
    e.num < 0x1_0000_0000 && e.timestamp < 0x1_0000_0000_0000_0000 && e.path < 0x1_0000_0000
  }

  function Header(e: Envelope): (h: ByteString)
    ensures |h| == HEADER_SIZE
  {
    BigEndian(e.num, 4) + BigEndian(e.timestamp, 8) + BigEndian(e.path, 4)
  }

  function Nonce(num: nat, timestamp: nat): ByteString {
    BigEndian(num, 4) + BigEndian(timestamp, 8)
  }

  /** A field that does not fit its slot makes the packing fail. */
  function EncryptAndPack(aead: Aead, e: Envelope): Option<ByteString> {
    if InRange(e) then
      Some(Header(e) + aead.seal(Nonce(e.num, e.timestamp), e.payload, Header(e)))
    else None
  }

  function UnpackAndDecrypt(aead: Aead, packet: ByteString): Option<Envelope> {
    if |packet| < HEADER_SIZE then None
    else
      var header := packet[..HEADER_SIZE];
      var num, timestamp, path := FromBigEndian(header[..4]), FromBigEndian(header[4..12]), FromBigEndian(header[12..]);
      match aead.open(Nonce(num, timestamp), packet[HEADER_SIZE..], header)
      case None => None
      case Some(payload) => Some(Envelope(payload, num, timestamp, path))
  }

  /** Unpacking a packed packet returns its payload and every header field. */
  lemma {:induction false} UnpackInvertsPack(aead: Aead, e: Envelope)
    requires Opens(aead)
    ensures EncryptAndPack(aead, e).Some? <==>
      e.num < 0x1_0000_0000 && e.timestamp < 0x1_0000_0000_0000_0000 && e.path < 0x1_0000_0000
    ensures InRange(e) ==> UnpackAndDecrypt(aead, EncryptAndPack(aead, e).value) == Some(e)
  {
    if InRange(e) {
      Capacities();
      var packet := EncryptAndPack(aead, e).value;
      var header := packet[..HEADER_SIZE];
      assert header == Header(e);
      assert header[..4] == BigEndian(e.num, 4);
      assert header[4..12] == BigEndian(e.timestamp, 8);
      assert header[12..] == BigEndian(e.path, 4);
      BigEndianRoundTrip(e.num, 4);
      BigEndianRoundTrip(e.timestamp, 8);
      BigEndianRoundTrip(e.path, 4);
      assert packet[HEADER_SIZE..] == aead.seal(Nonce(e.num, e.timestamp), e.payload, Header(e));
    }
  }

  /** A datagram unpacks to e exactly when it is the packing of e: no other header, path or
      timestamp can be put in front of a sealed payload. */
  lemma {:induction false} UnpacksOnlyPackings(aead: Aead, packet: ByteString, e: Envelope)
    requires Opens(aead) && Authenticates(aead)
    ensures UnpackAndDecrypt(aead, packet) == Some(e) <==> EncryptAndPack(aead, e) == Some(packet)
  {
    UnpackInvertsPack(aead, e);
    if UnpackAndDecrypt(aead, packet) == Some(e) {
      Capacities();
      var header := packet[..HEADER_SIZE];
      FromBigEndianRoundTrip(header[..4]);
      FromBigEndianRoundTrip(header[4..12]);
      FromBigEndianRoundTrip(header[12..]);
      assert header == header[..4] + header[4..12] + header[12..];
      assert Header(e) == header;
      assert packet == header + packet[HEADER_SIZE..];
    }
  }

  /** Where the fields stand: number, timestamp and path in network order; the nonce is the first twelve
      bytes, so that packets with different numbers or timestamps never share one. */
  lemma {:induction false} HeaderLayout(e: Envelope)
    requires InRange(e)
    ensures var h := Header(e);
      && FromBigEndian(h[0..4]) == e.num && FromBigEndian(h[4..12]) == e.timestamp && FromBigEndian(h[12..16]) == e.path
      && Nonce(e.num, e.timestamp) == h[0..12]
  {
    Capacities();
    BigEndianRoundTrip(e.num, 4);
    BigEndianRoundTrip(e.timestamp, 8);
    BigEndianRoundTrip(e.path, 4);
    var h := Header(e);
    assert h[0..4] == BigEndian(e.num, 4) && h[4..12] == BigEndian(e.timestamp, 8) && h[12..16] == BigEndian(e.path, 4);
    assert h[0..12] == h[0..4] + h[4..12];
  }

  lemma {:induction false} NoncesDiffer(d: Envelope, e: Envelope)
    requires InRange(d) && InRange(e)
    ensures Nonce(d.num, d.timestamp) == Nonce(e.num, e.timestamp) <==> d.num == e.num && d.timestamp == e.timestamp
  {
    HeaderLayout(d);
    HeaderLayout(e);
    var m, n := Nonce(d.num, d.timestamp), Nonce(e.num, e.timestamp);
    assert m[0..4] == Header(d)[0..4] && m[4..12] == Header(d)[4..12];
    assert n[0..4] == Header(e)[0..4] && n[4..12] == Header(e)[4..12];
  }

  /** A sealed payload behind another header opens only if the cipher seals something under that header,
      path included, to the same bytes. */
  lemma {:induction false} HeaderIsAuthenticated(aead: Aead, e: Envelope, header: ByteString)
    requires Authenticates(aead) && InRange(e) && |header| == 16
    ensures var box := EncryptAndPack(aead, e).value[16..]; var result := UnpackAndDecrypt(aead, header + box);
      result.Some? ==> aead.seal(header[0..12], result.value.payload, header) == box
  {
    var box := EncryptAndPack(aead, e).value[16..];
    var packet := header + box;
    assert packet[..16] == header && packet[16..] == box;
    FromBigEndianRoundTrip(header[..4]);
    FromBigEndianRoundTrip(header[4..12]);
    assert header[0..12] == header[..4] + header[4..12];
  }

  // ---------- Commands from the client, as the server reads them ----------

  datatype Command =
    | Connect(session: nat, tcp: bool, port: nat, address: ByteString)
    | Data(session: nat, body: ByteString)
    | Close(session: nat)

  /** What the client's three framing expressions can express: it asks for TCP only. */
  predicate Framable(c: Command) {
    c.session < 0x1_0000_0000 && (c.Connect? ==> c.tcp && c.port < 0x1_0000)
  }

  function FrameCommand(c: Command): Option<ByteString> {
    if !Framable(c) then None
    else match c
      case Connect(session, _, port, address) =>
        Some([1] + BigEndian(session, 4) + [1] + BigEndian(port, 2) + address)
      case Data(session, body) => Some([2] + BigEndian(session, 4) + body)
      case Close(session) => Some([3] + BigEndian(session, 4))
  }

  function ParseCommand(payload: ByteString): Option<Command> {
    if |payload| < 5 then None
    else
      var session, body := FromBigEndian(payload[1..5]), payload[5..];
      if payload[0] == 1 then
        if |body| < 4 then None
        else Some(Connect(session, body[0] == 1, FromBigEndian(body[1..3]), body[3..]))
      else if payload[0] == 2 then Some(Data(session, body))
      else if payload[0] == 3 then Some(Close(session))
      else None
  }

  /** The server reads back every frame of the client, except a CONNECT without an address, which
      it drops. */
  lemma {:induction false} ParseInvertsFrame(c: Command)
    requires Framable(c)
    ensures ParseCommand(FrameCommand(c).value)
      == if c.Connect? && c.address == [] then None else Some(c)
  {
    Capacities();
    BigEndianRoundTrip(c.session, 4);
    var f := FrameCommand(c).value;
    assert f[1..5] == BigEndian(c.session, 4);
    match c
    case Connect(_, _, port, address) =>
      BigEndianRoundTrip(port, 2);
      assert f[5..] == [1] + BigEndian(port, 2) + address;
      assert f[5..][1..3] == BigEndian(port, 2);
      assert f[5..][3..] == address;
    case Data(_, body) => assert f[5..] == body;
    case Close(_) =>
  }

  /** The bytes of a frame: a command byte 1, 2 or 3, the session in network order, and for CONNECT the
      byte 1 for TCP, the port in network order and the address. */
  lemma {:induction false} FrameLayout(c: Command)
    requires Framable(c)
    ensures var f := FrameCommand(c).value;
      && |f| >= 5 && f[0] == (if c.Connect? then 1 else if c.Data? then 2 else 3) && FromBigEndian(f[1..5]) == c.session
      && (c.Connect? ==> |f| >= 8 && f[5] == 1 && FromBigEndian(f[6..8]) == c.port && f[8..] == c.address)
      && (c.Data? ==> f[5..] == c.body) && (c.Close? ==> |f| == 5)
  {
    Capacities();
    BigEndianRoundTrip(c.session, 4);
    var f := FrameCommand(c).value;
    assert f[1..5] == BigEndian(c.session, 4);
    if c.Connect? {
      BigEndianRoundTrip(c.port, 2);
      assert f[6..8] == BigEndian(c.port, 2);
    }
  }

  // ---------- Replies from the server, as the client reads them ----------

  datatype Reply = ReplyData(session: nat, body: ByteString) | ReplyClose(session: nat)

  function FrameReply(session: nat, data: ByteString, isClose: bool): Option<ByteString> {
    if session < 0x1_0000_0000
    then Some([if isClose then 3 else 2] + BigEndian(session, 4) + data)
    else None
  }

  function ParseReply(payload: ByteString): Option<Reply> {
    if |payload| < 5 then None
    else
      var session := FromBigEndian(payload[1..5]);
      if payload[0] == 2 then Some(ReplyData(session, payload[5..]))
      else if payload[0] == 3 then Some(ReplyClose(session))
      else None
  }

  lemma {:induction false} ParseInvertsReply(session: nat, data: ByteString, isClose: bool)
    requires session < 0x1_0000_0000
    ensures ParseReply(FrameReply(session, data, isClose).value)
      == Some(if isClose then ReplyClose(session) else ReplyData(session, data))
  {
    Capacities();
    BigEndianRoundTrip(session, 4);
    var f := FrameReply(session, data, isClose).value;
    assert f[1..5] == BigEndian(session, 4);
    assert f[5..] == data;
  }

  /** The bytes of a reply: 3 for the end of a session and 2 for data, the session, the data. */
  lemma {:induction false} ReplyLayout(session: nat, data: ByteString, isClose: bool)
    ensures FrameReply(session, data, isClose).Some? <==> session < 0x1_0000_0000
    ensures session < 0x1_0000_0000 ==>
      var f := FrameReply(session, data, isClose).value;
      |f| >= 5 && f[0] == (if isClose then 3 else 2) && FromBigEndian(f[1..5]) == session && f[5..] == data
  {
    if session < 0x1_0000_0000 {
      Capacities();
      BigEndianRoundTrip(session, 4);
      assert FrameReply(session, data, isClose).value[1..5] == BigEndian(session, 4);
    }
  }

  /** Both layers together: a command framed, sealed and packed by the client is the command the
      server acts on, under the number and path it was sent with. */
  lemma {:induction false} CommandSurvivesTheTunnel(aead: Aead, c: Command, num: nat, timestamp: nat, path: nat)
    requires Opens(aead) && Framable(c) && (c.Connect? ==> c.address != [])
    requires InRange(Envelope(FrameCommand(c).value, num, timestamp, path))
    ensures var packet := EncryptAndPack(aead, Envelope(FrameCommand(c).value, num, timestamp, path)).value;
      var e := UnpackAndDecrypt(aead, packet);
      e.Some? && e.value.num == num && e.value.path == path && ParseCommand(e.value.payload) == Some(c)
  {
    UnpackInvertsPack(aead, Envelope(FrameCommand(c).value, num, timestamp, path));
    ParseInvertsFrame(c);
  }
}
