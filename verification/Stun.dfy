/** The STUN response parser (aetherbond-control/pkg/nat/stun.go, DiscoverNAT), against an encoder
    that follows sections 15, 15.1 and 15.2 of RFC 5389. */
module Stun {
  import opened Bytes
  import opened Wrappers

  const BUFFER_SIZE: nat := 512
  const MAGIC_COOKIE: nat := 0x2112_A442
  const COOKIE_HIGH: nat := 0x2112
  const MAPPED_ADDRESS: nat := 0x0001
  const XOR_MAPPED_ADDRESS: nat := 0x0020
  const IPV4: nat := 1

  datatype Endpoint = Endpoint(ip: nat, port: nat)

  /** OutOfBounds is the run-time panic of an index outside the receive buffer. */
  datatype Outcome = Found(endpoint: Endpoint) | TooShort | BadCookie | NoAddress | OutOfBounds

  // ---------- Exclusive or of the low bits ----------

  function Xor(a: nat, b: nat, bits: nat): nat {
    if bits == 0 then 0
    else 2 * Xor(a / 2, b / 2, bits - 1) + (if a % 2 == b % 2 then 0 else 1)
  }

  function Pow2(bits: nat): (p: nat)
    ensures p > 0
  {
    if bits == 0 then 1 else 2 * Pow2(bits - 1)
  }

  lemma {:induction false} XorFits(a: nat, b: nat, bits: nat)
    ensures Xor(a, b, bits) < Pow2(bits)
  {
    if bits > 0 {
      XorFits(a / 2, b / 2, bits - 1);
    }
  }

  lemma {:induction false} XorTwice(a: nat, b: nat, bits: nat)
    requires a < Pow2(bits)
    ensures Xor(Xor(a, b, bits), b, bits) == a
  {
    if bits > 0 {
      var half, bit := Xor(a / 2, b / 2, bits - 1), if a % 2 == b % 2 then 0 else 1;
      Halves(half, bit);
      XorTwice(a / 2, b / 2, bits - 1);
    }
  }

  lemma Halves(half: nat, bit: nat)
    requires bit < 2
    ensures (2 * half + bit) / 2 == half && (2 * half + bit) % 2 == bit
  {
  }

  /** Bit k of a number. */
  ghost predicate Bit(a: nat, k: nat) {
    a / Pow2(k) % 2 == 1
  }

  lemma {:induction false} HalvedQuotient(a: nat, m: nat)
    requires m > 0
    ensures a / (2 * m) == a / 2 / m
  {
    var h := a / 2;
    var q := h / m;
    var r, low := h % m, a % 2;
    assert a == 2 * h + low && h == q * m + r;
    QuotientOf(a, 2 * m, q, 2 * r + low);
  }

  lemma Multiples(p: nat, q: nat, d: nat)
    requires p < q
    ensures p * d + d <= q * d
  {
    var gap := q - p - 1;
    assert q * d == gap * d + p * d + d;
    assert gap * d >= 0;
  }

  lemma {:induction false} QuotientOf(a: nat, d: nat, q: nat, r: nat)
    requires r < d && a == q * d + r
    ensures a / d == q
  {
    var p := a / d;
    assert a == p * d + a % d;
    if p < q {
      Multiples(p, q, d);
    } else if q < p {
      Multiples(q, p, d);
    }
  }

  lemma {:induction false} BitShifts(a: nat, k: nat)
    ensures Bit(a, 0) <==> a % 2 == 1
    ensures Bit(a, k + 1) <==> Bit(a / 2, k)
  {
    HalvedQuotient(a, Pow2(k));
  }

  /** Exclusive or, bit by bit. */
  lemma {:induction false} XorBits(a: nat, b: nat, bits: nat, k: nat)
    requires k < bits
    ensures Bit(Xor(a, b, bits), k) <==> Bit(a, k) != Bit(b, k)
    decreases k
  {
    var half, bit := Xor(a / 2, b / 2, bits - 1), if a % 2 == b % 2 then 0 else 1;
    Halves(half, bit);
    var from := if k == 0 then 0 else k - 1;
    BitShifts(a, from);
    BitShifts(b, from);
    BitShifts(Xor(a, b, bits), from);
    if k > 0 {
      XorBits(a / 2, b / 2, bits - 1, k - 1);
    }
  }

  function Differ(c: nat, d: nat): nat {
    if c == d then 0 else 1
  }

  lemma {:induction false} XorAppends(a: nat, b: nat, bits: nat, c: nat, d: nat)
    requires c < 2 && d < 2
    ensures Xor(2 * a + c, 2 * b + d, bits + 1) == 2 * Xor(a, b, bits) + Differ(c, d)
  {
    Halves(a, c);
    Halves(b, d);
  }

  /** One more hexadecimal digit, given by its bits. */
  lemma {:induction false} XorAppendsDigit(a: nat, b: nat, bits: nat, v: nat,
        c3: nat, c2: nat, c1: nat, c0: nat, d3: nat, d2: nat, d1: nat, d0: nat)
    requires c3 < 2 && c2 < 2 && c1 < 2 && c0 < 2 && d3 < 2 && d2 < 2 && d1 < 2 && d0 < 2 && Xor(a, b, bits) == v
    ensures Xor(16 * a + 8 * c3 + 4 * c2 + 2 * c1 + c0, 16 * b + 8 * d3 + 4 * d2 + 2 * d1 + d0, bits + 4)
      == 16 * v + 8 * Differ(c3, d3) + 4 * Differ(c2, d2) + 2 * Differ(c1, d1) + Differ(c0, d0)
  {
    XorAppends(a, b, bits, c3, d3);
    XorAppends(2 * a + c3, 2 * b + d3, bits + 1, c2, d2);
    XorAppends(4 * a + 2 * c3 + c2, 4 * b + 2 * d3 + d2, bits + 2, c1, d1);
    XorAppends(8 * a + 4 * c3 + 2 * c2 + c1, 8 * b + 4 * d3 + 2 * d2 + d1, bits + 3, c0, d0);
  }

  lemma Widths()
    ensures Pow2(16) == 0x1_0000 && Pow2(32) == 0x1_0000_0000
  {
    assert Pow2(4) == 16 && Pow2(8) == 16 * Pow2(4) && Pow2(12) == 16 * Pow2(8) && Pow2(16) == 16 * Pow2(12);
    assert Pow2(20) == 16 * Pow2(16) && Pow2(24) == 16 * Pow2(20) && Pow2(28) == 16 * Pow2(24);
    assert Pow2(32) == 16 * Pow2(28);
  }

  // ---------- The parser ----------

  function Padding(length: nat): nat {
    (4 - length % 4) % 4
  }

  function U16(buf: ByteString, at: nat): nat
    requires at + 2 <= |buf|
  {
    var high: nat := buf[at];
    256 * high + buf[at + 1]
  }

  function U32(buf: ByteString, at: nat): nat
    requires at + 4 <= |buf|
  {
    0x1_0000 * U16(buf, at) + U16(buf, at + 2)
  }

  lemma {:induction false} U16Is(buf: ByteString, at: nat)
    requires at + 2 <= |buf|
    ensures U16(buf, at) == FromBigEndian(buf[at..at + 2])
  {
    var b := buf[at..at + 2];
    assert b[..1][..0] == [] && b[..1][0] == buf[at];
    assert FromBigEndian(b[..1]) == buf[at];
  }

  lemma {:induction false} U32Is(buf: ByteString, at: nat)
    requires at + 4 <= |buf|
    ensures U32(buf, at) == FromBigEndian(buf[at..at + 4])
  {
    var b := buf[at..at + 4];
    U16Is(buf, at);
    assert b[..3][..2] == buf[at..at + 2];
    assert FromBigEndian(b[..3]) == FromBigEndian(buf[at..at + 2]) * 256 + buf[at + 2];
  }

  method ParseResponse(buf: ByteString, n: nat) returns (outcome: Outcome)
    requires |buf| == BUFFER_SIZE && n <= BUFFER_SIZE
    ensures outcome == Parsed(buf, n)
  {
    if n < 20 {
      return TooShort;
    }
    if U32(buf, 4) != MAGIC_COOKIE {
      return BadCookie;
    }
    var idx, end := 20, 20 + U16(buf, 2);
    var found: Option<Endpoint> := None;
    while idx + 4 <= n && idx < end
      invariant Scan(buf, n, end, idx, found) == Scan(buf, n, end, 20, None)
      decreases BUFFER_SIZE - idx
    {
      var kind, length := U16(buf, idx), U16(buf, idx + 2);
      idx := idx + 4;
      if idx + length > n {
        break;
      }
      var read := ReadAddress(buf, kind, idx, found);
      if read.None? {
        return OutOfBounds;
      }
      found := read.value;
      idx := idx + length + Padding(length);
    }
    outcome := if found.None? then NoAddress else Found(found.value);
  }

  /** The body of the loop for one attribute value; None is the panic. */
  method ReadAddress(buf: ByteString, kind: nat, at: nat, found: Option<Endpoint>)
        returns (read: Option<Option<Endpoint>>)
    requires |buf| == BUFFER_SIZE
    ensures read == Address(buf, kind, at, found)
  {
    read := Some(found);
    if kind == MAPPED_ADDRESS || kind == XOR_MAPPED_ADDRESS {
      if at + 1 >= BUFFER_SIZE {
        return None;
      }
      if buf[at + 1] == IPV4 {
        if at + 8 > BUFFER_SIZE {
          return None;
        }
        var port, ip := U16(buf, at + 2), U32(buf, at + 4);
        if kind == XOR_MAPPED_ADDRESS {
          port, ip := Xor(port, COOKIE_HIGH, 16), Xor(ip, MAGIC_COOKIE, 32);
        }
        read := Some(Some(Endpoint(ip, port)));
      }
    }
  }

  ghost function Parsed(buf: ByteString, n: nat): Outcome
    requires |buf| == BUFFER_SIZE && n <= BUFFER_SIZE
  {
    if n < 20 then TooShort
    else if U32(buf, 4) != MAGIC_COOKIE then BadCookie
    else Scan(buf, n, 20 + U16(buf, 2), 20, None)
  }

  /** What one attribute contributes: nothing, an address, or a panic. */
  ghost function Address(buf: ByteString, kind: nat, at: nat, found: Option<Endpoint>): Option<Option<Endpoint>>
    requires |buf| == BUFFER_SIZE
  {
    if kind != MAPPED_ADDRESS && kind != XOR_MAPPED_ADDRESS then Some(found)
    else if at + 1 >= BUFFER_SIZE then None
    else if buf[at + 1] != IPV4 then Some(found)
    else if at + 8 > BUFFER_SIZE then None
    else if kind == MAPPED_ADDRESS then Some(Some(Endpoint(U32(buf, at + 4), U16(buf, at + 2))))
    else Some(Some(Endpoint(Xor(U32(buf, at + 4), MAGIC_COOKIE, 32), Xor(U16(buf, at + 2), COOKIE_HIGH, 16))))
  }

  ghost function Verdict(found: Option<Endpoint>): Outcome {
    if found.None? then NoAddress else Found(found.value)
  }

  ghost function Scan(buf: ByteString, n: nat, end: nat, idx: nat, found: Option<Endpoint>): Outcome
    requires |buf| == BUFFER_SIZE && n <= BUFFER_SIZE
    decreases BUFFER_SIZE - idx
  {
    if !(idx + 4 <= n && idx < end) then Verdict(found)
    else
      var kind, length, at := U16(buf, idx), U16(buf, idx + 2), idx + 4;
      if at + length > n then Verdict(found)
      else
        match Address(buf, kind, at, found)
        case None => OutOfBounds
        case Some(next) => Scan(buf, n, end, at + length + Padding(length), next)
  }

  // ---------- The encoder ----------

  datatype Attribute =
    | Mapped(endpoint: Endpoint)
    | XorMapped(endpoint: Endpoint)
    | Other(kind: nat, value: ByteString)

  /** Ports and addresses fit their fields; any other attribute is of another kind, or an address
      of another family. */
  ghost predicate Encodable(a: Attribute) {
    match a
    case Mapped(e) => e.port < 0x1_0000 && e.ip < 0x1_0000_0000
    case XorMapped(e) => e.port < 0x1_0000 && e.ip < 0x1_0000_0000
    case Other(kind, value) =>
      && kind < 0x1_0000 && |value| < 0x1_0000
      && (kind == MAPPED_ADDRESS || kind == XOR_MAPPED_ADDRESS ==> |value| >= 2 && value[1] != IPV4)
  }

  ghost function Kind(a: Attribute): nat {
    match a
    case Mapped(_) => MAPPED_ADDRESS
    case XorMapped(_) => XOR_MAPPED_ADDRESS
    case Other(kind, _) => kind
  }

  ghost function AddressValue(port: nat, ip: nat): (value: ByteString)
    ensures |value| == 8
  {
    [0, IPV4] + BigEndian(port, 2) + BigEndian(ip, 4)
  }

  ghost function Value(a: Attribute): ByteString {
    match a
    case Mapped(e) => AddressValue(e.port, e.ip)
    case XorMapped(e) => AddressValue(Xor(e.port, COOKIE_HIGH, 16), Xor(e.ip, MAGIC_COOKIE, 32))
    case Other(_, value) => value
  }

  ghost function Zeros(n: nat): (z: ByteString)
    ensures |z| == n
  {
    seq(n, i => 0)
  }

  ghost function Encode(a: Attribute): ByteString {
    BigEndian(Kind(a), 2) + BigEndian(|Value(a)|, 2) + Value(a) + Zeros(Padding(|Value(a)|))
  }

  ghost function EncodeAll(attributes: seq<Attribute>): ByteString {
    if attributes == [] then [] else Encode(attributes[0]) + EncodeAll(attributes[1..])
  }

  /** What is found once an attribute has been read. */
  ghost function Contribution(a: Attribute, found: Option<Endpoint>): Option<Endpoint> {
    if a.Other? then found else Some(a.endpoint)
  }

  /** The last address encoded, after one found before. */
  ghost function LastAddress(attributes: seq<Attribute>, found: Option<Endpoint>): Option<Endpoint> {
    if attributes == [] then found
    else LastAddress(attributes[1..], Contribution(attributes[0], found))
  }

  // ---------- Round trip ----------

  lemma {:induction false} ValueParsesBack(buf: ByteString, at: nat, a: Attribute, found: Option<Endpoint>)
    requires |buf| == BUFFER_SIZE && Encodable(a)
    requires at + |Value(a)| <= BUFFER_SIZE && buf[at..at + |Value(a)|] == Value(a)
    ensures Address(buf, Kind(a), at, found) == Some(Contribution(a, found))
  {
    if a.Other? {
      if a.kind == MAPPED_ADDRESS || a.kind == XOR_MAPPED_ADDRESS {
        assert buf[at + 1] == a.value[1];
      }
    } else {
      Capacities();
      Widths();
      var port := if a.Mapped? then a.endpoint.port else Xor(a.endpoint.port, COOKIE_HIGH, 16);
      var ip := if a.Mapped? then a.endpoint.ip else Xor(a.endpoint.ip, MAGIC_COOKIE, 32);
      XorFits(a.endpoint.port, COOKIE_HIGH, 16);
      XorFits(a.endpoint.ip, MAGIC_COOKIE, 32);
      AddressFields(buf, at, port, ip);
      XorTwice(a.endpoint.port, COOKIE_HIGH, 16);
      XorTwice(a.endpoint.ip, MAGIC_COOKIE, 32);
    }
  }

  lemma {:induction false} SubSlice(s: ByteString, a: nat, b: nat, c: nat, d: nat)
    requires a <= b <= |s| && c <= d <= b - a
    ensures s[a..b][c..d] == s[a + c..a + d]
  {
    forall i | 0 <= i < d - c
      ensures s[a..b][c..d][i] == s[a + c..a + d][i]
    {
      assert s[a..b][c..d][i] == s[a..b][c + i];
    }
  }

  /** A number encoded inside a part of the buffer reads back. */
  lemma {:induction false} FieldReads(buf: ByteString, idx: nat, part: ByteString, at: nat, width: nat, value: nat)
    requires idx + |part| <= |buf| && buf[idx..idx + |part|] == part && at + width <= |part|
    requires value < Capacity(width) && part[at..at + width] == BigEndian(value, width)
    ensures width == 2 ==> U16(buf, idx + at) == value
    ensures width == 4 ==> U32(buf, idx + at) == value
  {
    SubSlice(buf, idx, idx + |part|, at, at + width);
    BigEndianRoundTrip(value, width);
    if width == 2 {
      U16Is(buf, idx + at);
    } else if width == 4 {
      U32Is(buf, idx + at);
    }
  }

  lemma {:induction false} AddressFields(buf: ByteString, at: nat, port: nat, ip: nat)
    requires at + 8 <= |buf| && buf[at..at + 8] == AddressValue(port, ip)
    requires port < Capacity(2) && ip < Capacity(4)
    ensures buf[at + 1] == IPV4 && U16(buf, at + 2) == port && U32(buf, at + 4) == ip
  {
    var value := buf[at..at + 8];
    assert buf[at + 1] == value[1];
    assert value[2..4] == BigEndian(port, 2) && value[4..8] == BigEndian(ip, 4);
    FieldReads(buf, at, value, 2, 2, port);
    FieldReads(buf, at, value, 4, 4, ip);
  }

  lemma {:induction false} EncodeParts(a: Attribute)
    ensures var e, v := Encode(a), |Value(a)|;
      |e| == 4 + v + Padding(v)
      && e[0..2] == BigEndian(Kind(a), 2) && e[2..4] == BigEndian(v, 2) && e[4..4 + v] == Value(a)
  {
  }

  lemma {:induction false} PartFields(buf: ByteString, idx: nat, e: ByteString, kind: nat, value: ByteString)
    requires idx + |e| <= |buf| && buf[idx..idx + |e|] == e && 4 + |value| <= |e|
    requires kind < 0x1_0000 && |value| < 0x1_0000
    requires e[0..2] == BigEndian(kind, 2) && e[2..4] == BigEndian(|value|, 2) && e[4..4 + |value|] == value
    ensures U16(buf, idx) == kind && U16(buf, idx + 2) == |value| && buf[idx + 4..idx + 4 + |value|] == value
  {
    Capacities();
    FieldReads(buf, idx, e, 0, 2, kind);
    FieldReads(buf, idx, e, 2, 2, |value|);
    SubSlice(buf, idx, idx + |e|, 4, 4 + |value|);
  }

  lemma {:induction false} HeadFields(buf: ByteString, idx: nat, a: Attribute)
    requires Encodable(a) && idx + |Encode(a)| <= |buf| && buf[idx..idx + |Encode(a)|] == Encode(a)
    ensures |Encode(a)| == 4 + |Value(a)| + Padding(|Value(a)|)
    ensures U16(buf, idx) == Kind(a) && U16(buf, idx + 2) == |Value(a)|
    ensures buf[idx + 4..idx + 4 + |Value(a)|] == Value(a)
  {
    EncodeParts(a);
    PartFields(buf, idx, Encode(a), Kind(a), Value(a));
  }

  lemma ScanStep(buf: ByteString, n: nat, end: nat, idx: nat, found: Option<Endpoint>, kind: nat, length: nat,
        next: Option<Endpoint>)
    requires |buf| == BUFFER_SIZE && n <= BUFFER_SIZE && idx < end && idx + 4 + length <= n
    requires U16(buf, idx) == kind && U16(buf, idx + 2) == length && Address(buf, kind, idx + 4, found) == Some(next)
    ensures Scan(buf, n, end, idx, found) == Scan(buf, n, end, idx + 4 + length + Padding(length), next)
  {
  }

  lemma {:induction false} HeadAndTail(buf: ByteString, idx: nat, n: nat, head: ByteString, tail: ByteString)
    requires idx <= n <= |buf| && buf[idx..n] == head + tail
    ensures idx + |head| <= n && buf[idx..idx + |head|] == head && buf[idx + |head|..n] == tail
  {
    assert |buf[idx..n]| == |head| + |tail|;
    SubSlice(buf, idx, n, 0, |head|);
    SubSlice(buf, idx, n, |head|, n - idx);
    assert (head + tail)[0..|head|] == head && (head + tail)[|head|..n - idx] == tail;
  }

  ghost function Size(a: Attribute): nat {
    if a.Other? then |a.value| else 8
  }

  /** One attribute stands at idx, as the loop reads it. */
  ghost predicate Legible(buf: ByteString, n: nat, idx: nat, a: Attribute, found: Option<Endpoint>)
    requires |buf| == BUFFER_SIZE && n <= BUFFER_SIZE
  {
    && idx + 4 + Size(a) <= n
    && U16(buf, idx) == Kind(a) && U16(buf, idx + 2) == Size(a)
    && Address(buf, Kind(a), idx + 4, found) == Some(Contribution(a, found))
  }

  /** The attributes stand one behind the other from idx to n. */
  ghost predicate AllLegible(buf: ByteString, n: nat, idx: nat, attributes: seq<Attribute>, found: Option<Endpoint>)
    requires |buf| == BUFFER_SIZE && n <= BUFFER_SIZE
    decreases |attributes|
  {
    if attributes == [] then idx == n
    else
      var a := attributes[0];
      && Legible(buf, n, idx, a, found)
      && AllLegible(buf, n, idx + 4 + Size(a) + Padding(Size(a)), attributes[1..], Contribution(a, found))
  }

  lemma {:induction false} EncodedIsLegible(buf: ByteString, n: nat, idx: nat, a: Attribute, found: Option<Endpoint>)
    requires |buf| == BUFFER_SIZE && n <= BUFFER_SIZE && Encodable(a)
    requires idx + |Encode(a)| <= n && buf[idx..idx + |Encode(a)|] == Encode(a)
    ensures |Encode(a)| == 4 + Size(a) + Padding(Size(a)) && Legible(buf, n, idx, a, found)
  {
    assert |Value(a)| == Size(a);
    HeadFields(buf, idx, a);
    ValueParsesBack(buf, idx + 4, a, found);
  }

  /** The encodings stand one behind the other from idx to n. */
  ghost predicate Carries(buf: ByteString, n: nat, idx: nat, attributes: seq<Attribute>)
    decreases |attributes|
  {
    if attributes == [] then idx == n
    else
      var next := idx + |Encode(attributes[0])|;
      next <= n <= |buf| && buf[idx..next] == Encode(attributes[0]) && Carries(buf, n, next, attributes[1..])
  }

  lemma {:induction false} CarriesEncoding(buf: ByteString, n: nat, idx: nat, attributes: seq<Attribute>)
    requires idx <= n <= |buf| && buf[idx..n] == EncodeAll(attributes)
    ensures Carries(buf, n, idx, attributes)
    decreases |attributes|
  {
    if attributes == [] {
      assert |buf[idx..n]| == 0;
    } else {
      HeadAndTail(buf, idx, n, Encode(attributes[0]), EncodeAll(attributes[1..]));
      CarriesEncoding(buf, n, idx + |Encode(attributes[0])|, attributes[1..]);
    }
  }

  lemma {:induction false} CarriedIsLegible(buf: ByteString, n: nat, idx: nat, attributes: seq<Attribute>,
        found: Option<Endpoint>)
    requires |buf| == BUFFER_SIZE && n <= BUFFER_SIZE && Carries(buf, n, idx, attributes)
    requires forall i :: 0 <= i < |attributes| ==> Encodable(attributes[i])
    ensures AllLegible(buf, n, idx, attributes, found)
    decreases |attributes|
  {
    if attributes != [] {
      var a := attributes[0];
      EncodedIsLegible(buf, n, idx, a, found);
      CarriedIsLegible(buf, n, idx + |Encode(a)|, attributes[1..], Contribution(a, found));
    }
  }

  lemma {:induction false} ScanReadsAttributes(buf: ByteString, n: nat, idx: nat, attributes: seq<Attribute>,
        found: Option<Endpoint>)
    requires |buf| == BUFFER_SIZE && n <= BUFFER_SIZE && AllLegible(buf, n, idx, attributes, found)
    ensures Scan(buf, n, n, idx, found) == Verdict(LastAddress(attributes, found))
    decreases |attributes|
  {
    if attributes != [] {
      var a := attributes[0];
      ScanReadsAttributes(buf, n, idx + 4 + Size(a) + Padding(Size(a)), attributes[1..], Contribution(a, found));
    }
  }

  /** A response: type, length of the attributes, magic cookie, transaction id, attributes. */
  ghost function Response(kind: nat, transaction: ByteString, body: ByteString): ByteString {
    BigEndian(kind, 2) + BigEndian(|body|, 2) + BigEndian(MAGIC_COOKIE, 4) + transaction + body
  }

  lemma {:induction false} ResponseParts(kind: nat, transaction: ByteString, body: ByteString)
    requires |transaction| == 12
    ensures var response := Response(kind, transaction, body);
      && |response| == 20 + |body| && response[2..4] == BigEndian(|body|, 2)
      && response[4..8] == BigEndian(MAGIC_COOKIE, 4) && response[20..] == body
  {
  }

  lemma {:induction false} ParsedScansBody(buf: ByteString, kind: nat, transaction: ByteString, body: ByteString)
    requires |buf| == BUFFER_SIZE && 20 + |body| <= BUFFER_SIZE && |transaction| == 12
    requires buf[0..20 + |body|] == Response(kind, transaction, body)
    ensures buf[20..20 + |body|] == body
    ensures Parsed(buf, 20 + |body|) == Scan(buf, 20 + |body|, 20 + |body|, 20, None)
  {
    var response := Response(kind, transaction, body);
    ResponseParts(kind, transaction, body);
    Capacities();
    FieldReads(buf, 0, response, 4, 4, MAGIC_COOKIE);
    FieldReads(buf, 0, response, 2, 2, |body|);
    SubSlice(buf, 0, 20 + |body|, 20, 20 + |body|);
  }

  /** For every list of padded attributes that fits the receive buffer, whatever the buffer holds
      behind the response, the parser stays in bounds and yields the last IPv4 address and port that
      was encoded, mapped or XOR-mapped; NoAddress exactly when there was none. */
  lemma {:induction false} ParseInvertsEncode(kind: nat, transaction: ByteString, attributes: seq<Attribute>,
        behind: ByteString)
    requires |transaction| == 12
    requires forall i :: 0 <= i < |attributes| ==> Encodable(attributes[i])
    requires 20 + |EncodeAll(attributes)| + |behind| == BUFFER_SIZE
    ensures var response := Response(kind, transaction, EncodeAll(attributes));
      Parsed(response + behind, |response|) == Verdict(LastAddress(attributes, None))
  {
    var body := EncodeAll(attributes);
    var response := Response(kind, transaction, body);
    var buf, n := response + behind, 20 + |body|;
    assert buf[0..n] == response;
    ParsedScansBody(buf, kind, transaction, body);
    CarriesEncoding(buf, n, 20, attributes);
    CarriedIsLegible(buf, n, 20, attributes, None);
    ScanReadsAttributes(buf, n, 20, attributes, None);
  }

  // ---------- In numbers ----------

  /** The address 192.0.2.1 and the port 32853 masked with the cookie, and read back from the bytes that
      stand on the wire; the same bytes taken as a plain mapped address mean another one. */
  lemma {:induction false} MaskedAddressInNumbers(buf: ByteString, at: nat, found: Option<Endpoint>)
    requires |buf| == BUFFER_SIZE && at + 8 <= BUFFER_SIZE
    requires buf[at..at + 8] == [0x00, 0x01, 0xA1, 0x47, 0xE1, 0x12, 0xA6, 0x43]
    ensures COOKIE_HIGH == 0x2112_A442 / 0x1_0000
    ensures Address(buf, 0x0020, at, found) == Some(Some(Endpoint(0xC000_0201, 32853)))
    ensures Address(buf, 0x0001, at, found) == Some(Some(Endpoint(0xE112_A643, 41287)))
  {
    MaskedFields(buf, at);
    CookieMasksPort(0xA147, 0x2112, 16);
    CookieMasksAddress(0xE112_A643, 0x2112_A442, 32);
    AddressOf(buf, at, found, 0xA147, 0xE112_A643, 0x8055, 0xC000_0201);
  }

  lemma {:induction false} MaskedFields(buf: ByteString, at: nat)
    requires at + 8 <= |buf| && buf[at..at + 8] == [0x00, 0x01, 0xA1, 0x47, 0xE1, 0x12, 0xA6, 0x43]
    ensures buf[at + 1] == 1 && U16(buf, at + 2) == 0xA147 && U32(buf, at + 4) == 0xE112_A643
  {
    var value := buf[at..at + 8];
    assert forall i :: 0 <= i < 8 ==> buf[at + i] == value[i];
  }

  lemma AddressOf(buf: ByteString, at: nat, found: Option<Endpoint>, port: nat, ip: nat, unmaskedPort: nat,
        unmaskedIp: nat)
    requires |buf| == BUFFER_SIZE && at + 8 <= BUFFER_SIZE && buf[at + 1] == 1
    requires U16(buf, at + 2) == port && U32(buf, at + 4) == ip
    requires Xor(port, 0x2112, 16) == unmaskedPort && Xor(ip, 0x2112_A442, 32) == unmaskedIp
    ensures Address(buf, 0x0020, at, found) == Some(Some(Endpoint(unmaskedIp, unmaskedPort)))
    ensures Address(buf, 0x0001, at, found) == Some(Some(Endpoint(ip, port)))
  {
  }

  /** The width is a variable here so that nothing is unfolded. */
  lemma {:induction false} CookieMasksPortByte(x: nat, y: nat, n: nat)
    requires x == 0xA1 && y == 0x21 && n == 8
    ensures Xor(x, y, n) == 0x80
  {
    XorAppendsDigit(0x0, 0x0, n - 8, 0x0, 1, 0, 1, 0, 0, 0, 1, 0);
    XorAppendsDigit(0xA, 0x2, n - 4, 0x8, 0, 0, 0, 1, 0, 0, 0, 1);
  }

  lemma {:induction false} CookieMasksPort(x: nat, y: nat, n: nat)
    requires x == 0xA147 && y == 0x2112 && n == 16
    ensures Xor(x, y, n) == 0x8055
  {
    CookieMasksPortByte(0xA1, 0x21, n - 8);
    XorAppendsDigit(0xA1, 0x21, n - 8, 0x80, 0, 1, 0, 0, 0, 0, 0, 1);
    XorAppendsDigit(0xA14, 0x211, n - 4, 0x805, 0, 1, 1, 1, 0, 0, 1, 0);
  }

  lemma {:induction false} CookieMasksHighByte(x: nat, y: nat, n: nat)
    requires x == 0xE1 && y == 0x21 && n == 8
    ensures Xor(x, y, n) == 0xC0
  {
    XorAppendsDigit(0x0, 0x0, n - 8, 0x0, 1, 1, 1, 0, 0, 0, 1, 0);
    XorAppendsDigit(0xE, 0x2, n - 4, 0xC, 0, 0, 0, 1, 0, 0, 0, 1);
  }

  lemma {:induction false} CookieMasksHigh(x: nat, y: nat, n: nat)
    requires x == 0xE112 && y == 0x2112 && n == 16
    ensures Xor(x, y, n) == 0xC000
  {
    CookieMasksHighByte(0xE1, 0x21, n - 8);
    XorAppendsDigit(0xE1, 0x21, n - 8, 0xC0, 0, 0, 0, 1, 0, 0, 0, 1);
    XorAppendsDigit(0xE11, 0x211, n - 4, 0xC00, 0, 0, 1, 0, 0, 0, 1, 0);
  }

  lemma {:induction false} CookieMasksAddress(x: nat, y: nat, n: nat)
    requires x == 0xE112_A643 && y == 0x2112_A442 && n == 32
    ensures Xor(x, y, n) == 0xC000_0201
  {
    CookieMasksHigh(0xE112, 0x2112, n - 16);
    XorAppendsDigit(0xE112, 0x2112, n - 16, 0xC000, 1, 0, 1, 0, 1, 0, 1, 0);
    XorAppendsDigit(0xE112A, 0x2112A, n - 12, 0xC0000, 0, 1, 1, 0, 0, 1, 0, 0);
    XorAppendsDigit(0xE112A6, 0x2112A4, n - 8, 0xC00002, 0, 1, 0, 0, 0, 1, 0, 0);
    XorAppendsDigit(0xE112A64, 0x2112A44, n - 4, 0xC000020, 0, 0, 1, 1, 0, 0, 1, 0);
  }

  // ---------- Exactly when the parser stays in bounds ----------

  lemma {:induction false} ScanStaysInBounds(buf: ByteString, n: nat, end: nat, idx: nat, found: Option<Endpoint>)
    requires |buf| == BUFFER_SIZE && n < 508 && idx % 4 == 0
    ensures Scan(buf, n, end, idx, found) != OutOfBounds
    decreases BUFFER_SIZE - idx
  {
    if idx + 4 <= n && idx < end {
      var kind, length, at := U16(buf, idx), U16(buf, idx + 2), idx + 4;
      if at + length <= n {
        PaddedIsAligned(at, length);
        match Address(buf, kind, at, found)
        case None =>
        case Some(next) => ScanStaysInBounds(buf, n, end, at + length + Padding(length), next);
      }
    }
  }

  lemma PaddedIsAligned(at: nat, length: nat)
    requires at % 4 == 0
    ensures (at + length + Padding(length)) % 4 == 0
  {
  }

  /** A response of 508 bytes or more: one attribute of 480 bytes, then an empty mapped address whose
      family byte, behind the response, is that of IPv4. */
  ghost function Overrun(): (buf: ByteString)
    ensures |buf| == BUFFER_SIZE
  {
    seq(BUFFER_SIZE, i => if i == 2 || i == 22 || i == 505 || i == 509 then 1
                          else if i == 3 then 232 else if i == 23 then 224
                          else if i == 4 then 0x21 else if i == 5 then 0x12
                          else if i == 6 then 0xA4 else if i == 7 then 0x42 else 0)
  }

  lemma OverrunFields()
    ensures var buf := Overrun();
      && U32(buf, 4) == MAGIC_COOKIE && U16(buf, 2) == 488 && U16(buf, 20) == 0 && U16(buf, 22) == 480
      && U16(buf, 504) == MAPPED_ADDRESS && U16(buf, 506) == 0 && buf[509] == IPV4
  {
  }

  lemma {:induction false} ScanOverruns(buf: ByteString, n: nat, end: nat, idx: nat, found: Option<Endpoint>)
    requires |buf| == BUFFER_SIZE && idx + 4 <= n <= BUFFER_SIZE && idx < end && U16(buf, idx + 2) == 0
    requires U16(buf, idx) == MAPPED_ADDRESS && idx + 5 < BUFFER_SIZE < idx + 12 && buf[idx + 5] == IPV4
    ensures Scan(buf, n, end, idx, found) == OutOfBounds
  {
  }

  lemma {:induction false} OverrunIsRead(n: nat)
    requires 508 <= n <= BUFFER_SIZE
    ensures Parsed(Overrun(), n) == OutOfBounds
  {
    OverrunFields();
    ScanOverruns(Overrun(), n, 508, 504, None);
    ScanStep(Overrun(), n, 508, 20, None, 0, 480, None);
  }

  /** The parser never indexes outside its buffer, whatever it received, if and only if it received
      fewer than 508 bytes. */
  lemma {:induction false} StaysInBoundsExactly(n: nat)
    requires n <= BUFFER_SIZE
    ensures n < 508 <==> forall buf: ByteString :: |buf| == BUFFER_SIZE ==> Parsed(buf, n) != OutOfBounds
  {
    if n < 508 {
      forall buf: ByteString | |buf| == BUFFER_SIZE
        ensures Parsed(buf, n) != OutOfBounds
      {
        if n >= 20 && U32(buf, 4) == MAGIC_COOKIE {
          ScanStaysInBounds(buf, n, 20 + U16(buf, 2), 20, None);
        }
      }
    } else {
      OverrunIsRead(n);
    }
  }
}
