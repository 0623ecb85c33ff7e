// Building a whole packet in a buffer, and what a receiver makes of it.

module PacketWriter {
  import opened Wrappers
  import opened Bytes
  import opened SgList
  import opened Memory
  import opened Transmit
  import opened Headers
  import opened HeaderWriter
  import opened Icrc

  // ---- the payload ------------------------------------------------------------------------------------------

  const RDMA_PAYLOAD_ALIGNMENT: nat := 4

  // The length of a payload, as it is added up with its elements.
  function TotalLen(payload: seq<Element>): nat {
    if payload == [] then 0 else payload[0].len + TotalLen(payload[1..])
  }

  lemma {:induction false} TotalLenIs(payload: seq<Element>)
    ensures |PayloadAddrs(payload)| == TotalLen(payload)
    decreases |payload|
  {
    if payload != [] {
      TotalLenIs(payload[1..]);
    }
  }

  // The bytes of a payload that lies in src.
  ghost function Content(src: seq<byte>, payload: seq<Element>): (r: seq<byte>)
    requires Gatherable(src, PayloadAddrs(payload))
    ensures |r| == TotalLen(payload)
  {
    TotalLenIs(payload);
    Gather(src, PayloadAddrs(payload))
  }

  // The least number of bytes that fills the payload up to a multiple of four.
  function GetPadCnt(totalLen: nat): (padCnt: nat)
    ensures padCnt < RDMA_PAYLOAD_ALIGNMENT && (totalLen + padCnt) % RDMA_PAYLOAD_ALIGNMENT == 0
  {
    var padCnt := RDMA_PAYLOAD_ALIGNMENT - totalLen % RDMA_PAYLOAD_ALIGNMENT;
    if padCnt == RDMA_PAYLOAD_ALIGNMENT then 0 else padCnt
  }

  // The copy leaves the payload at its place and everything else alone.
  method CopyPayload(buf: array<byte>, at: nat, src: array<byte>, payload: seq<Element>)
    requires src != buf && Gatherable(src[..], PayloadAddrs(payload)) && at + TotalLen(payload) <= buf.Length
    modifies buf
    ensures buf[at..at + TotalLen(payload)] == Content(src[..], payload)
    ensures SameOutside(old(buf[..]), buf[..], at, at + TotalLen(payload))
  {
    hide Gather, PayloadAddrs;
    TotalLenIs(payload);
    CopyTo(src, payload, buf, at);
  }

  // ---- network headers ------------------------------------------------------------------------------------------

  type Ipv4Addr = s: seq<byte> | |s| == 4 witness [0, 0, 0, 0]

  datatype Route = Route(srcAddr: Ipv4Addr, srcPort: u16, destAddr: Ipv4Addr, destPort: u16, ipId: u16)

  const IP_UDP_SIZE: nat := 28

  // Version 4 with five words, time to live 64, protocol 17, the checksum zero.
  ghost function IpBytes(route: Route, totalLength: u16): (h: seq<byte>)
    ensures |h| == 20
  {
    [0x45, 0] + ToBe(totalLength, 2) + ToBe(route.ipId, 2) + ToBe(0, 2) + [64, 0x11] + ToBe(0, 2)
    + route.srcAddr + route.destAddr
  }

  ghost function UdpBytes(route: Route, totalLength: u16): (h: seq<byte>)
    requires totalLength >= 20
    ensures |h| == 8
  {
    ToBe(route.srcPort, 2) + ToBe(route.destPort, 2) + ToBe(totalLength - 20, 2) + ToBe(0, 2)
  }

  // What a router reads in the network headers (section 3.1 of RFC 791, and RFC 768): version and length of the
  // header, the length of the datagram, its identification, no fragments, time to live, UDP, and the route; the
  // length of the UDP part is what follows the IP header.
  ghost predicate RoutedAs(h: seq<byte>, route: Route, totalLength: nat)
    requires |h| == IP_UDP_SIZE
  {
    && h[0] / 16 == 4 && h[0] % 16 * 4 == 20 && h[8] == 64 && h[9] == 17
    && Fixed16(h[2..4]) == totalLength && Fixed16(h[4..6]) == route.ipId && Fixed16(h[6..8]) == 0
    && h[12..16] == route.srcAddr && h[16..20] == route.destAddr
    && Fixed16(h[20..22]) == route.srcPort && Fixed16(h[22..24]) == route.destPort
    && Fixed16(h[24..26]) + 20 == totalLength
  }

  lemma RouteReadsBack(route: Route, totalLength: u16)
    requires totalLength >= 20
    ensures RoutedAs(IpBytes(route, totalLength) + UdpBytes(route, totalLength), route, totalLength)
  {
    hide ToBe, FromBe;
    var h := IpBytes(route, totalLength) + UdpBytes(route, totalLength);
    Pow256s();
    BeRoundTrip(totalLength, 2);
    BeRoundTrip(route.ipId, 2);
    BeRoundTrip(0, 2);
    BeRoundTrip(route.srcPort, 2);
    BeRoundTrip(route.destPort, 2);
    BeRoundTrip(totalLength - 20, 2);
    assert h[2..4] == ToBe(totalLength, 2) && h[4..6] == ToBe(route.ipId, 2) && h[6..8] == ToBe(0, 2);
    assert h[12..16] == route.srcAddr && h[16..20] == route.destAddr;
    assert h[20..22] == ToBe(route.srcPort, 2) && h[22..24] == ToBe(route.destPort, 2);
    assert h[24..26] == ToBe(totalLength - 20, 2);
  }

  method WriteIpUdpHeader(buf: array<byte>, route: Route, totalLength: u16)
    requires buf.Length >= IP_UDP_SIZE && totalLength >= 20
    modifies buf
    ensures buf[..IP_UDP_SIZE] == IpBytes(route, totalLength) + UdpBytes(route, totalLength)
    ensures SameOutside(old(buf[..]), buf[..], 0, IP_UDP_SIZE)
  {
    WriteIpHeader(buf, route, totalLength);
    ghost var ip := buf[..20];
    WriteUdpHeader(buf, route, totalLength);
    assert buf[..20] == ip;
    assert buf[..IP_UDP_SIZE] == ip + buf[20..28];
  }

  method WriteIpHeader(buf: array<byte>, route: Route, totalLength: u16)
    requires buf.Length >= 20
    modifies buf
    ensures buf[..20] == IpBytes(route, totalLength)
    ensures SameOutside(old(buf[..]), buf[..], 0, 20)
  {
    hide ToBe;
    buf[0], buf[1], buf[8], buf[9] := 0x45, 0, 64, 0x11;
    StoreAddresses(buf, route);
    ghost var addrs := buf[12..20];
    StoreLengths(buf, route, totalLength);
    assert buf[12..20] == addrs;
    ghost var front := buf[..10];
    assert front == [0x45, 0] + buf[2..8] + [64, 0x11];
    Store(buf, 10, ToBe(0, 2));
    assert buf[..10] == front && buf[12..20] == addrs;
    assert buf[..20] == buf[..10] + buf[10..12] + buf[12..20];
  }

  method StoreAddresses(buf: array<byte>, route: Route)
    requires buf.Length >= 20
    modifies buf
    ensures buf[12..20] == route.srcAddr + route.destAddr
    ensures SameOutside(old(buf[..]), buf[..], 12, 20)
  {
    Store(buf, 12, route.srcAddr);
    Store(buf, 16, route.destAddr);
    assert buf[12..20] == buf[12..16] + buf[16..20];
  }

  // Length, flags with offset, and identification.
  method StoreLengths(buf: array<byte>, route: Route, totalLength: u16)
    requires buf.Length >= 20
    modifies buf
    ensures buf[2..8] == ToBe(totalLength, 2) + ToBe(route.ipId, 2) + ToBe(0, 2)
    ensures SameOutside(old(buf[..]), buf[..], 2, 8)
  {
    hide ToBe;
    Store(buf, 2, ToBe(totalLength, 2));
    Store(buf, 6, ToBe(0, 2));
    Store(buf, 4, ToBe(route.ipId, 2));
    assert buf[2..8] == buf[2..4] + buf[4..6] + buf[6..8];
  }

  method WriteUdpHeader(buf: array<byte>, route: Route, totalLength: u16)
    requires buf.Length >= IP_UDP_SIZE && totalLength >= 20
    modifies buf
    ensures buf[20..28] == UdpBytes(route, totalLength)
    ensures SameOutside(old(buf[..]), buf[..], 20, 28)
  {
    hide ToBe;
    Store(buf, 20, ToBe(route.srcPort, 2));
    Store(buf, 22, ToBe(route.destPort, 2));
    Store(buf, 24, ToBe(totalLength - 20, 2));
    Store(buf, 26, ToBe(0, 2));
    assert buf[20..28] == buf[20..22] + buf[22..24] + buf[24..26] + buf[26..28];
  }

  // ---- the packet ------------------------------------------------------------------------------------------------

  datatype Message = Message(meta: Metadata, payload: seq<Element>)

  // What has been given to the builder so far.
  datatype Setup = Setup(
    srcAddr: Option<Ipv4Addr>,
    srcPort: Option<u16>,
    destAddr: Option<Ipv4Addr>,
    destPort: Option<u16>,
    ipId: Option<u16>,
    message: Option<Message>)

  datatype WriteError =
    | MissingSrcAddr | MissingSrcPort | MissingDestAddr | MissingDestPort | MissingMessage | MissingIpId
    | BufferNotLargeEnough(needed: nat) | PacketFailure(error: PacketError) | LengthTooLong(length: nat)

  function HeaderEnd(m: Message): nat {
    IP_UDP_SIZE + HeaderSize(m.meta.common.opcode)
  }

  function TotalLength(m: Message): (n: nat)
    ensures n >= 48 && n >= HeaderEnd(m) + TotalLen(m.payload) + ICRC_SIZE
  {
    HeaderEnd(m) + TotalLen(m.payload) + GetPadCnt(TotalLen(m.payload)) + ICRC_SIZE
  }

  // Header and payload are written unchecked: room for them must be there.
  predicate HasRoom(setup: Setup, length: nat) {
    setup.message.Some? && length >= IP_UDP_SIZE ==>
      HeaderEnd(setup.message.value) <= length &&
      (Writable(setup.message.value.meta) && TotalLength(setup.message.value) <= 0xFFFF ==>
         HeaderEnd(setup.message.value) + TotalLen(setup.message.value.payload) <= length)
  }

  // Why no packet comes out, if none does.
  function Obstacle(setup: Setup, length: nat): Option<WriteError> {
    if setup.message.None? then Some(MissingMessage)
    else if length < IP_UDP_SIZE then Some(BufferNotLargeEnough(IP_UDP_SIZE))
    else if !Writable(setup.message.value.meta) then Some(PacketFailure(InvalidMetadataType))
    else if TotalLength(setup.message.value) > 0xFFFF then Some(LengthTooLong(TotalLength(setup.message.value)))
    else if setup.ipId.None? then Some(MissingIpId)
    else if setup.srcAddr.None? then Some(MissingSrcAddr)
    else if setup.srcPort.None? then Some(MissingSrcPort)
    else if setup.destAddr.None? then Some(MissingDestAddr)
    else if setup.destPort.None? then Some(MissingDestPort)
    else if TotalLength(setup.message.value) > length then Some(BufferNotLargeEnough(TotalLength(setup.message.value)))
    else None
  }

  // The message can be written as far as message and buffer are concerned; what else is missing is found later.
  predicate Sound(setup: Setup, length: nat) {
    && setup.message.Some? && length >= IP_UDP_SIZE && Writable(setup.message.value.meta)
    && TotalLength(setup.message.value) <= 0xFFFF
  }

  predicate HasRoute(setup: Setup) {
    setup.ipId.Some? && setup.srcAddr.Some? && setup.srcPort.Some? && setup.destAddr.Some? && setup.destPort.Some?
  }

  // A packet comes out exactly when the message fits its opcode and both length limits and the route is complete. An
  // error names what is missing, the first in the order identification, source, destination.
  lemma ObstacleIff(setup: Setup, length: nat)
    ensures Obstacle(setup, length).None? <==>
            Sound(setup, length) && HasRoute(setup) && TotalLength(setup.message.value) <= length
    ensures Obstacle(setup, length) == Some(MissingMessage) <==> setup.message.None?
    ensures Obstacle(setup, length) == Some(MissingIpId) <==> Sound(setup, length) && setup.ipId.None?
    ensures Obstacle(setup, length) == Some(MissingSrcAddr) <==>
            Sound(setup, length) && setup.ipId.Some? && setup.srcAddr.None?
    ensures Obstacle(setup, length) == Some(MissingSrcPort) <==>
            Sound(setup, length) && setup.ipId.Some? && setup.srcAddr.Some? && setup.srcPort.None?
    ensures Obstacle(setup, length) == Some(MissingDestAddr) <==>
            && Sound(setup, length) && setup.ipId.Some? && setup.srcAddr.Some? && setup.srcPort.Some?
            && setup.destAddr.None?
    ensures Obstacle(setup, length) == Some(MissingDestPort) <==>
            && Sound(setup, length) && setup.ipId.Some? && setup.srcAddr.Some? && setup.srcPort.Some?
            && setup.destAddr.Some? && setup.destPort.None?
    ensures Sound(setup, length) && HasRoute(setup) && TotalLength(setup.message.value) > length ==>
            Obstacle(setup, length) == Some(BufferNotLargeEnough(TotalLength(setup.message.value)))
  {
    hide TotalLength, Writable;
  }

  function RouteOf(setup: Setup): Route
    requires setup.srcAddr.Some? && setup.srcPort.Some? && setup.destAddr.Some? && setup.destPort.Some?
             && setup.ipId.Some?
  {
    Route(setup.srcAddr.value, setup.srcPort.value, setup.destAddr.value, setup.destPort.value, setup.ipId.value)
  }

  // Everything but the checksum; the padding keeps what the buffer held.
  ghost function BodyBytes(prior: seq<byte>, route: Route, m: Message, src: seq<byte>): (b: seq<byte>)
    requires Writable(m.meta) && TotalLength(m) <= |prior| && TotalLength(m) <= 0xFFFF
    requires Gatherable(src, PayloadAddrs(m.payload))
    ensures |b| == TotalLength(m) - ICRC_SIZE
  {
    var n := TotalLength(m);
    var padCnt := GetPadCnt(TotalLen(m.payload));
    IpBytes(route, n) + UdpBytes(route, n) + HeaderBytes(prior[28..40], m.meta, padCnt)
    + Content(src, m.payload) + prior[n - ICRC_SIZE - padCnt..n - ICRC_SIZE]
  }

  ghost function PacketBytes(crc: Crc, prior: seq<byte>, route: Route, m: Message, src: seq<byte>): (p: seq<byte>)
    requires Writable(m.meta) && TotalLength(m) <= |prior| && TotalLength(m) <= 0xFFFF
    requires Gatherable(src, PayloadAddrs(m.payload))
    ensures |p| == TotalLength(m)
  {
    var body := BodyBytes(prior, route, m, src);
    body + ToLe(IcrcOf(crc, body + [0, 0, 0, 0]), 4)
  }

  // How far a call that fails may have written.
  function Touched(setup: Setup): nat {
    if setup.message.None? then 0 else HeaderEnd(setup.message.value) + TotalLen(setup.message.value.payload)
  }

  // The payload of the message lies in src.
  method Write(crc: Crc, buf: array<byte>, src: array<byte>, setup: Setup) returns (r: Result<nat, WriteError>)
    requires HasRoom(setup, buf.Length) && src != buf
    requires setup.message.Some? ==> Gatherable(src[..], PayloadAddrs(setup.message.value.payload))
    modifies buf
    ensures r == match Obstacle(setup, buf.Length)
                 case Some(e) => Err(e)
                 case None => Ok(TotalLength(setup.message.value))
    ensures r.Ok? ==> buf[..r.value] == PacketBytes(crc, old(buf[..]), RouteOf(setup), setup.message.value, src[..])
    ensures r.Ok? ==> buf[r.value..] == old(buf[r.value..])
    ensures r.Err? ==> SameOutside(old(buf[..]), buf[..], 0, Touched(setup))
  {
    hide HeaderBytes, IpBytes, UdpBytes, ToLe, Content, TotalLen, Gather, PayloadAddrs, Gatherable, IcrcOf,
         HeaderSize, GetPadCnt, SameOutside;
    ghost var prior := buf[..];
    SameAsBefore(prior, Touched(setup));
    if setup.message.None? {
      return Err(MissingMessage);
    }
    var m := setup.message.value;
    if buf.Length < IP_UDP_SIZE {
      return Err(BufferNotLargeEnough(IP_UDP_SIZE));
    }
    r := WriteTransport(buf, src, m);
    HeaderHolds(m.meta.common.opcode);
    SameWider(prior, buf[..], IP_UDP_SIZE, Touched(setup));
    if r.Err? {
      return;
    }
    var total := r.value;
    if setup.ipId.None? {
      return Err(MissingIpId);
    }
    if setup.srcAddr.None? {
      return Err(MissingSrcAddr);
    }
    if setup.srcPort.None? {
      return Err(MissingSrcPort);
    }
    if setup.destAddr.None? {
      return Err(MissingDestAddr);
    }
    if setup.destPort.None? {
      return Err(MissingDestPort);
    }
    ghost var before := buf[..];
    WriteIpUdpHeader(buf, RouteOf(setup), total);
    TransportKept(prior, before, buf[..], m, src[..]);
    SameTwice(prior, before, buf[..], Touched(setup));
    if total > buf.Length {
      return Err(BufferNotLargeEnough(total));
    }
    Assembled(prior, buf[..], RouteOf(setup), m, src[..]);
    WriteIcrc(crc, buf, total);
  }

  method WriteTransport(buf: array<byte>, src: array<byte>, m: Message) returns (r: Result<nat, WriteError>)
    requires buf.Length >= HeaderEnd(m) && src != buf && Gatherable(src[..], PayloadAddrs(m.payload))
    requires Writable(m.meta) && TotalLength(m) <= 0xFFFF ==> HeaderEnd(m) + TotalLen(m.payload) <= buf.Length
    modifies buf
    ensures r == if !Writable(m.meta) then Err(PacketFailure(InvalidMetadataType))
                 else if TotalLength(m) > 0xFFFF then Err(LengthTooLong(TotalLength(m)))
                 else Ok(TotalLength(m))
    ensures r.Ok? ==> TransportWritten(old(buf[..]), buf[..], m, src[..])
    ensures SameOutside(old(buf[..]), buf[..], IP_UDP_SIZE, HeaderEnd(m) + TotalLen(m.payload))
  {
    hide HeaderBytes, Content, TotalLen, Gather, PayloadAddrs, Gatherable, HeaderSize, GetPadCnt;
    var length := TotalLen(m.payload);
    var padCnt := GetPadCnt(length);
    ghost var prior := buf[..];
    HeaderHolds(m.meta.common.opcode);
    var header := SetFromRdmaMessage(buf, IP_UDP_SIZE, m.meta, padCnt);
    if header.Err? {
      return Err(PacketFailure(header.error));
    }
    var total := IP_UDP_SIZE + header.value + length + padCnt + ICRC_SIZE;
    if total > 0xFFFF {
      return Err(LengthTooLong(total));
    }
    var headerEnd := IP_UDP_SIZE + header.value;
    ghost var headerBytes := buf[28..headerEnd];
    CopyPayload(buf, headerEnd, src, m.payload);
    assert buf[28..headerEnd] == headerBytes;
    assert buf[headerEnd + length..] == prior[headerEnd + length..];
    r := Ok(total);
  }

  // Header, payload, and what the buffer held before.
  ghost predicate TransportWritten(prior: seq<byte>, now: seq<byte>, m: Message, src: seq<byte>)
    requires Gatherable(src, PayloadAddrs(m.payload))
  {
    var h, l := HeaderEnd(m), TotalLen(m.payload);
    Writable(m.meta) && h + l <= |prior| == |now| &&
    now[28..h] == HeaderBytes(prior[28..40], m.meta, GetPadCnt(l)) &&
    now[h..h + l] == Content(src, m.payload) &&
    now[h + l..] == prior[h + l..]
  }

  lemma TransportKept(prior: seq<byte>, before: seq<byte>, after: seq<byte>, m: Message, src: seq<byte>)
    requires Gatherable(src, PayloadAddrs(m.payload)) && TransportWritten(prior, before, m, src)
             && SameOutside(before, after, 0, 28)
    ensures TransportWritten(prior, after, m, src)
  {
    hide HeaderBytes, Content, TotalLen, Gather, PayloadAddrs, Gatherable, HeaderSize, GetPadCnt;
    var h, l := HeaderEnd(m), TotalLen(m.payload);
    HeaderHolds(m.meta.common.opcode);
    assert before[28..h] == after[28..h];
    assert before[h..h + l] == after[h..h + l];
    assert before[h + l..] == after[h + l..];
  }

  method WriteIcrc(crc: Crc, buf: array<byte>, total: nat)
    requires HEADERS_SIZE + ICRC_SIZE <= total <= buf.Length
    modifies buf
    ensures var body := old(buf[..total - ICRC_SIZE]);
      buf[..total] == body + ToLe(IcrcOf(crc, body + [0, 0, 0, 0]), 4)
    ensures buf[total..] == old(buf[total..])
  {
    hide IcrcOf, ToLe;
    ghost var body := buf[..total - ICRC_SIZE];
    var icrc := ComputeIcrc(crc, buf[..total]);
    IcrcIgnores(crc, buf[..total], body + [0, 0, 0, 0]);
    Store(buf, total - ICRC_SIZE, ToLe(icrc, 4));
    assert buf[..total - ICRC_SIZE] == body;
    assert buf[..total] == body + buf[total - ICRC_SIZE..total];
  }

  lemma SameAsBefore(s: seq<byte>, hi: nat)
    ensures SameOutside(s, s, 0, 0) && SameOutside(s, s, 0, hi)
  {
  }

  lemma SameWider(a: seq<byte>, b: seq<byte>, lo: nat, hi: nat)
    requires SameOutside(a, b, lo, hi)
    ensures SameOutside(a, b, 0, hi)
  {
  }

  lemma SameTwice(a: seq<byte>, b: seq<byte>, c: seq<byte>, hi: nat)
    requires SameOutside(a, b, 0, hi) && SameOutside(b, c, 0, IP_UDP_SIZE) && hi >= IP_UDP_SIZE
    ensures SameOutside(a, c, 0, hi)
  {
  }

  lemma HeaderHolds(op: Opcode)
    ensures HeaderSize(op) >= 16
  {
  }

  // The parts of a buffer, put together.
  lemma Assembled(prior: seq<byte>, now: seq<byte>, route: Route, m: Message, src: seq<byte>)
    requires Gatherable(src, PayloadAddrs(m.payload))
    requires Writable(m.meta) && TotalLength(m) <= |prior| == |now| && TotalLength(m) <= 0xFFFF
    requires now[..28] == IpBytes(route, TotalLength(m)) + UdpBytes(route, TotalLength(m))
    requires TransportWritten(prior, now, m, src)
    ensures now[..TotalLength(m) - ICRC_SIZE] == BodyBytes(prior, route, m, src)
    ensures now[TotalLength(m)..] == prior[TotalLength(m)..]
  {
    hide IpBytes, UdpBytes, HeaderBytes, Content, TotalLen, Gather, PayloadAddrs, Gatherable, HeaderSize, GetPadCnt;
    var h, l, n := HeaderEnd(m), TotalLen(m.payload), TotalLength(m) - ICRC_SIZE;
    assert now[h + l..n] == now[h + l..][..n - h - l];
    assert prior[h + l..n] == prior[h + l..][..n - h - l];
    assert now[n + ICRC_SIZE..] == now[h + l..][n + ICRC_SIZE - h - l..];
    assert prior[n + ICRC_SIZE..] == prior[h + l..][n + ICRC_SIZE - h - l..];
    assert now[..n] == now[..28] + now[28..h] + now[h..h + l] + now[h + l..n];
  }

  // ---- the receiver ---------------------------------------------------------------------------------------

  datatype Incoming = Incoming(meta: Metadata, payload: seq<byte>)

  // The transport part of a datagram that is long enough.
  ghost predicate Parsable(d: seq<byte>) {
    |d| >= HEADERS_SIZE + ICRC_SIZE ==> Readable(d[IP_UDP_SIZE..|d| - ICRC_SIZE])
  }

  ghost function Delivered(crc: Crc, d: seq<byte>): Option<Incoming>
    requires Parsable(d)
  {
    if |d| < HEADERS_SIZE + ICRC_SIZE || FromLe(d[|d| - ICRC_SIZE..]) != IcrcOf(crc, d) then None
    else
      var b := d[IP_UDP_SIZE..|d| - ICRC_SIZE];
      match ToRdmaMessage(b)
      case Err(_) => None
      case Ok(p) =>
        PayloadFollows(b);
        var at := HeaderSize(p.meta.common.opcode);
        Some(Incoming(p.meta, b[at..at + p.payloadLen]))
  }

  // Every packet that is written is accepted, and delivers the payload and what the header can hold of
  // the metadata: all of it, exactly when the message fits the format.
  lemma SentIsReceived(crc: Crc, prior: seq<byte>, route: Route, m: Message, src: seq<byte>)
    requires Gatherable(src, PayloadAddrs(m.payload))
    requires Writable(m.meta) && TotalLength(m) <= |prior| && TotalLength(m) <= 0xFFFF
    ensures Parsable(PacketBytes(crc, prior, route, m, src))
    ensures Delivered(crc, PacketBytes(crc, prior, route, m, src))
            == Some(Incoming(Seen(m.meta), Content(src, m.payload)))
    ensures Delivered(crc, PacketBytes(crc, prior, route, m, src)) == Some(Incoming(m.meta, Content(src, m.payload)))
       <==> Representable(m.meta)
  {
    hide IpBytes, UdpBytes, HeaderBytes, Content, TotalLen, Gather, PayloadAddrs, Gatherable, HeaderSize, GetPadCnt,
         Headers.GetPadCnt, IcrcOf, ToLe, FromLe, Seen, Representable, Writable, ToRdmaMessage, Readable;
    var d := PacketBytes(crc, prior, route, m, src);
    var body := BodyBytes(prior, route, m, src);
    var n := |body|;
    assert d[..n] == body;
    IcrcIgnores(crc, d, body + [0, 0, 0, 0]);
    assert d[|d| - ICRC_SIZE..] == ToLe(IcrcOf(crc, d), 4);
    Pow256s();
    LeRoundTrip(IcrcOf(crc, d), 4);

    var payload := Content(src, m.payload);
    var padCnt := GetPadCnt(|payload|);
    var header := HeaderBytes(prior[28..40], m.meta, padCnt);
    var rest := payload + prior[n - padCnt..n];
    var b := d[IP_UDP_SIZE..|d| - ICRC_SIZE];
    assert b == body[28..];
    assert b == header + rest;
    HeaderRoundTrip(prior[28..40], m.meta, padCnt, rest);
    RoundTripIff(m.meta);
    PadCntOf(prior[28..40], m.meta, padCnt, b, rest);
    PayloadFollows(b);
    assert b[|header|..|header| + |payload|] == payload;
  }

  // The checksum is taken of everything that the receiver reads: packets of equal length of which the checksum sees
  // the same deliver the same.
  lemma ChecksumSeesMessage(crc: Crc, prior: seq<byte>, route: Route, m: Message, src: seq<byte>, prior': seq<byte>,
                            route': Route, m': Message, src': seq<byte>)
    requires Gatherable(src, PayloadAddrs(m.payload)) && Gatherable(src', PayloadAddrs(m'.payload))
    requires Writable(m.meta) && TotalLength(m) <= |prior| && TotalLength(m) <= 0xFFFF
    requires Writable(m'.meta) && TotalLength(m') <= |prior'| && TotalLength(m') <= 0xFFFF
    requires Fed(PacketBytes(crc, prior, route, m, src)) == Fed(PacketBytes(crc, prior', route', m', src'))
    ensures Seen(m.meta) == Seen(m'.meta) && Content(src, m.payload) == Content(src', m'.payload)
  {
    hide IpBytes, UdpBytes, HeaderBytes, Content, TotalLen, Gather, PayloadAddrs, Gatherable, HeaderSize, GetPadCnt,
         Headers.GetPadCnt, ToLe, FromLe, Seen, Representable, Writable, ToRdmaMessage, Readable, PacketBytes, Fed;
    var d, d' := PacketBytes(crc, prior, route, m, src), PacketBytes(crc, prior', route', m', src');
    assert |Fed(d)| == |Fed(d')|;
    var n := |d| - ICRC_SIZE;
    ReservedIsZero(crc, prior, route, m, src);
    ReservedIsZero(crc, prior', route', m', src');
    forall i | IP_UDP_SIZE <= i < n ensures d[i] == d'[i] {
      assert Fed(d)[8 + i] == Fed(d')[8 + i];
    }
    assert d[IP_UDP_SIZE..n] == d'[IP_UDP_SIZE..n];
    BodyParses(crc, prior, route, m, src);
    BodyParses(crc, prior', route', m', src');
  }

  // The reserved byte before the queue pair number is written as zero.
  lemma ReservedIsZero(crc: Crc, prior: seq<byte>, route: Route, m: Message, src: seq<byte>)
    requires Gatherable(src, PayloadAddrs(m.payload))
    requires Writable(m.meta) && TotalLength(m) <= |prior| && TotalLength(m) <= 0xFFFF
    ensures PacketBytes(crc, prior, route, m, src)[32] == 0
  {
    hide IpBytes, UdpBytes, Content, TotalLen, Gather, PayloadAddrs, Gatherable, GetPadCnt, Fed, ToLe, HeaderBytes,
         HeaderSize;
    var padCnt := GetPadCnt(TotalLen(m.payload));
    HeaderHolds(m.meta.common.opcode);
    ReservedByte(prior[28..40], m.meta, padCnt);
    assert PacketBytes(crc, prior, route, m, src)[32] == HeaderBytes(prior[28..40], m.meta, padCnt)[4];
  }

  // What stands between the network headers and the checksum parses to what was sent.
  lemma BodyParses(crc: Crc, prior: seq<byte>, route: Route, m: Message, src: seq<byte>)
    requires Gatherable(src, PayloadAddrs(m.payload))
    requires Writable(m.meta) && TotalLength(m) <= |prior| && TotalLength(m) <= 0xFFFF
    ensures var d := PacketBytes(crc, prior, route, m, src);
            var b := d[IP_UDP_SIZE..|d| - ICRC_SIZE];
            && Readable(b) && ToRdmaMessage(b).Ok? && ToRdmaMessage(b).value.meta == Seen(m.meta)
            && var at, len := HeaderSize(Seen(m.meta).common.opcode), ToRdmaMessage(b).value.payloadLen;
               at + len <= |b| && b[at..at + len] == Content(src, m.payload)
  {
    hide IpBytes, UdpBytes, HeaderBytes, Content, TotalLen, Gather, PayloadAddrs, Gatherable, GetPadCnt,
         Headers.GetPadCnt, ToLe, FromLe, Representable, Writable, ToRdmaMessage, Readable, Fed;
    var d := PacketBytes(crc, prior, route, m, src);
    var body, payload := BodyBytes(prior, route, m, src), Content(src, m.payload);
    var n, padCnt := |body|, GetPadCnt(|payload|);
    assert d[..n] == body;
    var header := HeaderBytes(prior[28..40], m.meta, padCnt);
    var rest := payload + prior[n - padCnt..n];
    var b := d[IP_UDP_SIZE..|d| - ICRC_SIZE];
    assert b == body[28..];
    assert b == header + rest;
    HeaderRoundTrip(prior[28..40], m.meta, padCnt, rest);
    assert b[|header|..|header| + |payload|] == payload;
  }

  lemma PadCntOf(h: seq<byte>, m: Metadata, padCnt: nat, b: seq<byte>, rest: seq<byte>)
    requires |h| >= BTH_SIZE && padCnt < 4 && Writable(m) && b == HeaderBytes(h, m, padCnt) + rest
    ensures |b| >= BTH_SIZE && Headers.GetPadCnt(b) == padCnt
  {
    hide Headers.GetPadCnt, BthBytes;
    assert b[..BTH_SIZE] == BthBytes(h, m.common, padCnt);
    BthRoundTrip(h, m.common, padCnt, b);
  }

  method Receive(crc: Crc, received: array<byte>) returns (r: Option<Incoming>)
    requires Parsable(received[..])
    modifies received
    ensures r == Delivered(crc, old(received[..]))
  {
    hide IcrcOf, FromLe, ToRdmaMessage, Readable, Headers.GetPadCnt, HeaderSize;
    var n := received.Length;
    if n < HEADERS_SIZE + ICRC_SIZE {
      return None;
    }
    ghost var before := received[..];
    var valid := IsIcrcValid(crc, received);
    if !valid {
      return None;
    }
    var data := received[IP_UDP_SIZE..n - ICRC_SIZE];
    assert data == before[IP_UDP_SIZE..n - ICRC_SIZE];
    var parsed := ToRdmaMessage(data);
    if parsed.Err? {
      return None;
    }
    PayloadFollows(data);
    var at := HeaderSize(parsed.value.meta.common.opcode);
    r := Some(Incoming(parsed.value.meta, data[at..at + parsed.value.payloadLen]));
  }

  // The payload starts where the header of the opcode ends.
  lemma PayloadFollows(b: seq<byte>)
    requires Readable(b) && ToRdmaMessage(b).Ok?
    ensures var p := ToRdmaMessage(b).value;
      HeaderSize(p.meta.common.opcode) + p.payloadLen + Headers.GetPadCnt(b) == |b|
  {
  }
}
