// The 'Packet' command of the TUIC version 5 protocol: destinations, the packed
// form of a UDP message, and the two decoders (uni-stream and datagram).
module Codec {
  import opened Bytes

  const VERSION: byte := 5
  const COMMAND_PACKET: byte := 2

  const ADDRESS_DOMAIN: byte := 0x00
  const ADDRESS_IPV4: byte := 0x01
  const ADDRESS_IPV6: byte := 0x02
  const ADDRESS_NONE: byte := 0xff

  const IPV4_LEN := 4
  const IPV6_LEN := 16

  type IPv4Bytes = s: seq<byte> | |s| == IPV4_LEN witness [0, 0, 0, 0]
  type IPv6Bytes = s: seq<byte> | |s| == IPV6_LEN witness [0, 0, 0, 0, 0, 0, 0, 0, 0, 0, 0, 0, 0, 0, 0, 0]

  datatype Network = TCP | UDP

  datatype Address = Domain(name: seq<byte>) | IPv4(ip4: IPv4Bytes) | IPv6(ip6: IPv6Bytes)

  // NoDestination stands for every destination whose IsValid() is false.
  datatype Destination =
    | NoDestination
    | Destination(network: Network, address: Address, port: uint16)

  datatype UdpMessage = UdpMessage(
    sessionID: uint16,
    packetID: uint16,
    fragmentTotal: byte,
    fragmentID: byte,
    destination: Destination,
    data: seq<byte>)
  {
    function HeaderSize(): nat { 10 + DestinationLen(destination) }
  }

  function DestinationLen(destination: Destination): nat {
    match destination
    case NoDestination => 1
    case Destination(_, Domain(name), _) => 1 + 1 + |name| + 2
    case Destination(_, IPv4(_), _) => 1 + IPV4_LEN + 2
    case Destination(_, IPv6(_), _) => 1 + IPV6_LEN + 2
  }

  // ::ffff:a.b.c.d, which the network library turns into the IPv4 address a.b.c.d.
  predicate IsMapped(ip: IPv6Bytes) {
    ip[..12] == [0, 0, 0, 0, 0, 0, 0, 0, 0, 0, 0xff, 0xff]
  }

  function FromIPv6(ip: IPv6Bytes): Address {
    if IsMapped(ip) then IPv4(ip[12..]) else IPv6(ip)
  }

  // Exactly the addresses ::ffff:a.b.c.d become IPv4 addresses, with these four
  // bytes; all others stay.
  lemma MappedIff(ip: IPv6Bytes)
    ensures FromIPv6(ip).IPv4? <==> (forall i :: 0 <= i < 10 ==> ip[i] == 0) && ip[10] == 0xff && ip[11] == 0xff
    ensures FromIPv6(ip).IPv4? ==> FromIPv6(ip).ip4 == [ip[12], ip[13], ip[14], ip[15]]
    ensures !FromIPv6(ip).IPv4? ==> FromIPv6(ip) == IPv6(ip)
  {
    assert ip[..12] == [ip[0], ip[1], ip[2], ip[3], ip[4], ip[5], ip[6], ip[7], ip[8], ip[9], ip[10], ip[11]];
  }

  // ---------- Writing ----------

  datatype Packing = Packed(bytes: seq<byte>) | ShortBuffer

  predicate Writable(destination: Destination) {
    destination.Destination? && destination.address.Domain? ==> |destination.address.name| <= 255
  }

  // The wire form of a destination.
  function WireDestination(destination: Destination): (b: seq<byte>)
    requires Writable(destination)
    ensures |b| == DestinationLen(destination)
  {
    match destination
    case NoDestination => [ADDRESS_NONE]
    case Destination(_, address, port) =>
      (match address
       case Domain(name) => [ADDRESS_DOMAIN, |name|] + name
       case IPv4(ip) => [ADDRESS_IPV4] + ip
       case IPv6(ip) => [ADDRESS_IPV6] + ip) + BigEndian(port)
  }

  function FixedFields(m: UdpMessage): (b: seq<byte>)
    ensures |b| == 8
  {
    BigEndian(m.sessionID) + BigEndian(m.packetID) + [m.fragmentTotal] + [m.fragmentID] +
    BigEndian(ToUint16(|m.data|))
  }

  // Everything that follows the version and command bytes, up to the payload.
  function WireHeader(m: UdpMessage): (b: seq<byte>)
    requires Writable(m.destination)
    ensures |b| == m.HeaderSize() - 2
  {
    FixedFields(m) + WireDestination(m.destination)
  }

  function WireMessage(m: UdpMessage): (b: seq<byte>)
    requires Writable(m.destination)
    ensures |b| == m.HeaderSize() + |m.data|
  {
    [VERSION, COMMAND_PACKET] + WireHeader(m) + m.data
  }

  // A growing output buffer.
  class Buffer {
    var contents: seq<byte>

    constructor ()
      ensures contents == []
    {
      contents := [];
    }

    method Write(bytes: seq<byte>)
      modifies this
      ensures contents == old(contents) + bytes
    {
      contents := contents + bytes;
    }

    method WriteDestination(destination: Destination) returns (ok: bool)
      modifies this
      ensures ok == Writable(destination)
      ensures contents == if ok then old(contents) + WireDestination(destination) else old(contents)
    {
      if destination.NoDestination? {
        Write([ADDRESS_NONE]);
        return true;
      }
      match destination.address {
        case Domain(name) =>
          if |name| > 255 {
            return false;
          }
          Write([ADDRESS_DOMAIN, |name|]);
          Write(name);
        case IPv4(ip) =>
          Write([ADDRESS_IPV4]);
          Write(ip);
        case IPv6(ip) =>
          Write([ADDRESS_IPV6]);
          Write(ip);
      }
      Write(BigEndian(destination.port));
      assert contents == old(contents) + WireDestination(destination);
      return true;
    }
  }

  method Pack(m: UdpMessage) returns (r: Packing)
    ensures r == if Writable(m.destination) then Packed(WireMessage(m)) else ShortBuffer
  {
    var buffer := new Buffer();
    buffer.Write([VERSION]);
    buffer.Write([COMMAND_PACKET]);
    buffer.Write(BigEndian(m.sessionID));
    buffer.Write(BigEndian(m.packetID));
    buffer.Write([m.fragmentTotal]);
    buffer.Write([m.fragmentID]);
    buffer.Write(BigEndian(ToUint16(|m.data|)));
    assert buffer.contents == [VERSION, COMMAND_PACKET] + FixedFields(m);
    var ok := buffer.WriteDestination(m.destination);
    if !ok {
      return ShortBuffer;
    }
    assert buffer.contents == [VERSION, COMMAND_PACKET] + WireHeader(m);
    buffer.Write(m.data);
    return Packed(buffer.contents);
  }

  // ---------- Reading ----------

  datatype ReadError = EOF | UnexpectedEOF

  // What a parse yields: a value and the bytes after it, or the reader's error.
  datatype Parsed<+T> = Ok(value: T, rest: seq<byte>) | Err(error: ReadError) {
    predicate IsFailure() { Err? }
    function PropagateFailure<U>(): Parsed<U>
      requires Err?
    {
      Err(error)
    }
    function Extract(): (T, seq<byte>)
      requires Ok?
    {
      (value, rest)
    }
  }

  // io.ReadFull: all n bytes or an error, EOF only when nothing at all was left.
  function Take(s: seq<byte>, n: nat): (r: Parsed<seq<byte>>)
    ensures r.Ok? ==> n <= |s| && r.value == s[..n] && r.rest == s[n..]
  {
    if n <= |s| then Ok(s[..n], s[n..])
    else if s == [] then Err(EOF)
    else Err(UnexpectedEOF)
  }

  function TakeUint16(s: seq<byte>): Parsed<uint16> {
    var (b, rest) :- Take(s, 2);
    Ok(Uint16(b[0], b[1]), rest)
  }

  function TakeByte(s: seq<byte>): Parsed<byte> {
    var (b, rest) :- Take(s, 1);
    Ok(b[0], rest)
  }

  function ParseDestination(s: seq<byte>): Parsed<Destination> {
    var (kind, s) :- TakeByte(s);
    if kind == ADDRESS_NONE then Ok(NoDestination, s)
    else
      var (address, s) :- ParseAddress(kind, s);
      var (port, s) :- TakeUint16(s);
      Ok(Destination(UDP, address, port), s)
  }

  function ParseAddress(kind: byte, s: seq<byte>): Parsed<Address> {
    if kind == ADDRESS_DOMAIN then
      var (length, s) :- TakeByte(s);
      var (name, s) :- Take(s, length);
      Ok(Domain(name), s)
    else if kind == ADDRESS_IPV4 then
      var (ip, s) :- Take(s, IPV4_LEN);
      Ok(IPv4(ip), s)
    else if kind == ADDRESS_IPV6 then
      var (ip, s) :- Take(s, IPV6_LEN);
      Ok(FromIPv6(ip), s)
    else
      Err(UnexpectedEOF)
  }

  // The fixed fields and the destination; the value pairs an empty message with
  // the announced payload length.
  function ParseHeader(s: seq<byte>): Parsed<(UdpMessage, uint16)> {
    var (sessionID, s) :- TakeUint16(s);
    var (packetID, s) :- TakeUint16(s);
    var (total, s) :- TakeByte(s);
    var (id, s) :- TakeByte(s);
    var (length, s) :- TakeUint16(s);
    var (destination, s) :- ParseDestination(s);
    Ok((UdpMessage(sessionID, packetID, total, id, destination, []), length), s)
  }

  // The stream decoder: takes the announced payload and leaves the rest unread.
  function ParseStream(s: seq<byte>): Parsed<UdpMessage> {
    var (header, s) :- ParseHeader(s);
    var (data, s) :- Take(s, header.1);
    Ok(header.0.(data := data), s)
  }

  // The datagram decoder: the payload must be exactly what is left.
  function ParseDatagram(s: seq<byte>): Parsed<UdpMessage> {
    var (header, s) :- ParseHeader(s);
    if |s| != header.1 then Err(UnexpectedEOF) else Ok(header.0.(data := s), [])
  }

  // A byte source that is consumed from the front.
  class Reader {
    var unread: seq<byte>

    constructor (data: seq<byte>)
      ensures unread == data
    {
      unread := data;
    }

    method ReadFull(n: nat) returns (r: Parsed<seq<byte>>)
      modifies this
      ensures r == Take(old(unread), n)
      ensures r.Ok? ==> unread == r.rest
    {
      r := Take(unread, n);
      unread := if r.Ok? then r.rest else [];
    }

    method ReadUint16() returns (r: Parsed<uint16>)
      modifies this
      ensures r == TakeUint16(old(unread))
      ensures r.Ok? ==> unread == r.rest
    {
      var b :- ReadFull(2);
      return Ok(Uint16(b.0[0], b.0[1]), unread);
    }

    method ReadByte() returns (r: Parsed<byte>)
      modifies this
      ensures r == TakeByte(old(unread))
      ensures r.Ok? ==> unread == r.rest
    {
      var b :- ReadFull(1);
      return Ok(b.0[0], unread);
    }

    method ReadDestination() returns (r: Parsed<Destination>)
      modifies this
      ensures r == ParseDestination(old(unread))
      ensures r.Ok? ==> unread == r.rest
    {
      var kind :- ReadByte();
      var address;
      if kind.0 == ADDRESS_NONE {
        return Ok(NoDestination, unread);
      } else if kind.0 == ADDRESS_DOMAIN {
        var length :- ReadByte();
        var name :- ReadFull(length.0);
        address := Domain(name.0);
      } else if kind.0 == ADDRESS_IPV4 {
        var ip :- ReadFull(IPV4_LEN);
        address := IPv4(ip.0);
      } else if kind.0 == ADDRESS_IPV6 {
        var ip :- ReadFull(IPV6_LEN);
        address := FromIPv6(ip.0);
      } else {
        return Err(UnexpectedEOF);
      }
      var port :- ReadUint16();
      return Ok(Destination(UDP, address, port.0), unread);
    }

    // The fields shared by both decoders.
    method ReadHeader() returns (r: Parsed<(UdpMessage, uint16)>)
      modifies this
      ensures r == ParseHeader(old(unread))
      ensures r.Ok? ==> unread == r.rest
    {
      var sessionID :- ReadUint16();
      var packetID :- ReadUint16();
      var total :- ReadByte();
      var id :- ReadByte();
      var length :- ReadUint16();
      var destination :- ReadDestination();
      return Ok((UdpMessage(sessionID.0, packetID.0, total.0, id.0, destination.0, []), length.0), unread);
    }
  }

  method ReadUDPMessage(reader: Reader) returns (r: Parsed<UdpMessage>)
    modifies reader
    ensures r == ParseStream(old(reader.unread))
    ensures r.Ok? ==> reader.unread == r.rest
  {
    var header :- reader.ReadHeader();
    var data :- reader.ReadFull(header.0.1);
    return Ok(header.0.0.(data := data.0), reader.unread);
  }

  method DecodeUDPMessage(data: seq<byte>) returns (r: Parsed<UdpMessage>)
    ensures r == ParseDatagram(data)
  {
    var reader := new Reader(data);
    var header :- reader.ReadHeader();
    if |reader.unread| != header.0.1 {
      return Err(UnexpectedEOF);
    }
    ParseIsSuffix(data);
    assert data[|data| - |reader.unread|..] == reader.unread;
    return Ok(header.0.0.(data := data[|data| - |reader.unread|..]), []);
  }

  // ---------- Round trips ----------

  // What any decoder can recover of a destination: the network is not on the
  // wire and a mapped IPv6 address comes back as IPv4.
  function Canonical(destination: Destination): Destination {
    match destination
    case NoDestination => NoDestination
    case Destination(_, IPv6(ip), port) => Destination(UDP, FromIPv6(ip), port)
    case Destination(_, address, port) => Destination(UDP, address, port)
  }

  // What is parsed is a prefix; the rest is untouched.
  lemma ParseIsSuffix(s: seq<byte>)
    ensures var p := ParseHeader(s); p.Ok? ==> |p.rest| <= |s| && p.rest == s[|s| - |p.rest|..]
  {
    if ParseHeader(s).Ok? {
      var d := ParseDestination(s[8..]);
      assert s[2..][2..] == s[4..] && s[4..][1..] == s[5..] && s[5..][1..] == s[6..] && s[6..][2..] == s[8..];
      DestinationIsSuffix(s[8..]);
    }
  }

  lemma DestinationIsSuffix(s: seq<byte>)
    ensures var p := ParseDestination(s); p.Ok? ==> |p.rest| <= |s| && p.rest == s[|s| - |p.rest|..]
  {
  }

  lemma TakePrefix(a: seq<byte>, tail: seq<byte>)
    ensures Take(a + tail, |a|) == Ok(a, tail)
  {
  }

  lemma DomainRoundTrip(name: seq<byte>, tail: seq<byte>)
    requires |name| <= 255
    ensures ParseAddress(ADDRESS_DOMAIN, [|name|] + (name + tail)) == Ok(Domain(name), tail)
  {
  }

  lemma IPRoundTrip(ip: seq<byte>, tail: seq<byte>)
    ensures |ip| == IPV4_LEN ==> ParseAddress(ADDRESS_IPV4, ip + tail) == Ok(IPv4(ip), tail)
    ensures |ip| == IPV6_LEN ==> ParseAddress(ADDRESS_IPV6, ip + tail) == Ok(FromIPv6(ip), tail)
  {
  }

  lemma DestinationByParts(kind: byte, body: seq<byte>, address: Address, port: uint16, tail: seq<byte>)
    requires kind != ADDRESS_NONE
    requires ParseAddress(kind, body) == Ok(address, BigEndian(port) + tail)
    ensures ParseDestination([kind] + body) == Ok(Destination(UDP, address, port), tail)
  {
  }

  function AddressKind(address: Address): byte {
    match address
    case Domain(_) => ADDRESS_DOMAIN
    case IPv4(_) => ADDRESS_IPV4
    case IPv6(_) => ADDRESS_IPV6
  }

  function AddressBody(address: Address): seq<byte>
    requires address.Domain? ==> |address.name| <= 255
  {
    match address
    case Domain(name) => [|name|] + name
    case IPv4(ip) => ip
    case IPv6(ip) => ip
  }

  lemma AddressRoundTrip(address: Address, tail: seq<byte>)
    requires address.Domain? ==> |address.name| <= 255
    ensures ParseAddress(AddressKind(address), AddressBody(address) + tail)
         == Ok(if address.IPv6? then FromIPv6(address.ip6) else address, tail)
  {
    match address
    case Domain(name) =>
      DomainRoundTrip(name, tail);
      assert AddressBody(address) + tail == [|name|] + (name + tail);
    case IPv4(ip) => IPRoundTrip(ip, tail);
    case IPv6(ip) => IPRoundTrip(ip, tail);
  }

  lemma DestinationRoundTrip(destination: Destination, tail: seq<byte>)
    requires Writable(destination)
    ensures ParseDestination(WireDestination(destination) + tail) == Ok(Canonical(destination), tail)
  {
    if destination.Destination? {
      var address, port := destination.address, destination.port;
      AddressRoundTrip(address, BigEndian(port) + tail);
      var canonical := if address.IPv6? then FromIPv6(address.ip6) else address;
      DestinationByParts(AddressKind(address), AddressBody(address) + (BigEndian(port) + tail), canonical, port, tail);
      Reassociate([AddressKind(address)], AddressBody(address), BigEndian(port), tail);
      assert WireDestination(destination) == [AddressKind(address)] + AddressBody(address) + BigEndian(port);
    } else {
      TakePrefix([ADDRESS_NONE], tail);
    }
  }

  lemma Reassociate(a: seq<byte>, b: seq<byte>, c: seq<byte>, d: seq<byte>)
    ensures (a + b + c) + d == a + (b + (c + d))
  {
  }

  // The fixed fields are read by position.
  lemma HeaderByPosition(s: seq<byte>)
    requires |s| >= 8
    ensures var p := ParseDestination(s[8..]);
            ParseHeader(s) ==
            if p.Err? then Err(p.error)
            else Ok((UdpMessage(Uint16(s[0], s[1]), Uint16(s[2], s[3]), s[4], s[5], p.value, []),
                     Uint16(s[6], s[7])), p.rest)
  {
  }

  lemma HeaderRoundTrip(m: UdpMessage, s: seq<byte>, tail: seq<byte>)
    requires Writable(m.destination)
    requires s == FixedFields(m) + (WireDestination(m.destination) + tail)
    ensures ParseHeader(s)
         == Ok((m.(destination := Canonical(m.destination), data := []), ToUint16(|m.data|)), tail)
  {
    var f, d := FixedFields(m), WireDestination(m.destination) + tail;
    assert s[8..] == d && forall i :: 0 <= i < 8 ==> s[i] == f[i];
    HeaderByPosition(s);
    DestinationRoundTrip(m.destination, tail);
    FixedFieldsByPosition(m);
  }

  lemma FixedFieldsByPosition(m: UdpMessage)
    ensures var f := FixedFields(m);
            && Uint16(f[0], f[1]) == m.sessionID && Uint16(f[2], f[3]) == m.packetID
            && f[4] == m.fragmentTotal && f[5] == m.fragmentID
            && Uint16(f[6], f[7]) == ToUint16(|m.data|)
  {
  }

  // The stream decoder inverts the printer and leaves exactly the trailing
  // bytes. The 16-bit length field keeps the payload length modulo 65536, so the
  // payload comes back whole exactly when it is shorter than that.
  lemma StreamRoundTrip(m: UdpMessage, tail: seq<byte>)
    requires Writable(m.destination)
    ensures ParseStream(WireMessage(m)[2..] + tail)
         == Ok(m.(destination := Canonical(m.destination), data := m.data[..ToUint16(|m.data|)]),
               m.data[ToUint16(|m.data|)..] + tail)
    ensures m.data[..ToUint16(|m.data|)] == m.data <==> |m.data| < 0x1_0000
  {
    WireParts(m, tail);
    PayloadLength(m.data);
    hide *;
    ReadBack(m, WireMessage(m)[2..] + tail, tail);
  }

  lemma ReadBack(m: UdpMessage, s: seq<byte>, tail: seq<byte>)
    requires Writable(m.destination)
    requires s == FixedFields(m) + (WireDestination(m.destination) + (m.data + tail))
    ensures var k := ToUint16(|m.data|);
            k <= |m.data| &&
            ParseStream(s) == Ok(m.(destination := Canonical(m.destination), data := m.data[..k]), m.data[k..] + tail)
  {
    hide *;
    var k := ToUint16(|m.data|);
    PayloadLength(m.data);
    HeaderRoundTrip(m, s, m.data + tail);
    StreamAfterHeader(s, m.(destination := Canonical(m.destination), data := []), k, m.data + tail);
    assert (m.data + tail)[..k] == m.data[..k] && (m.data + tail)[k..] == m.data[k..] + tail;
  }

  lemma StreamAfterHeader(s: seq<byte>, header: UdpMessage, length: uint16, rest: seq<byte>)
    requires ParseHeader(s) == Ok((header, length), rest)
    ensures ParseStream(s).Ok? <==> length <= |rest|
    ensures length <= |rest| ==> ParseStream(s) == Ok(header.(data := rest[..length]), rest[length..])
  {
    hide ParseHeader;
  }

  lemma PayloadLength(data: seq<byte>)
    ensures ToUint16(|data|) <= |data|
    ensures data[..ToUint16(|data|)] == data <==> |data| < 0x1_0000
  {
  }

  lemma WireParts(m: UdpMessage, tail: seq<byte>)
    requires Writable(m.destination)
    ensures WireMessage(m)[..2] == [VERSION, COMMAND_PACKET]
    ensures WireMessage(m)[2..] + tail == FixedFields(m) + (WireDestination(m.destination) + (m.data + tail))
  {
  }

  // The datagram decoder inverts the printer exactly on payloads whose length
  // fits the length field, and refuses every longer one.
  lemma DatagramRoundTrip(m: UdpMessage)
    requires Writable(m.destination)
    ensures ParseDatagram(WireMessage(m)[2..])
         == if |m.data| < 0x1_0000 then Ok(m.(destination := Canonical(m.destination)), []) else Err(UnexpectedEOF)
  {
    WirePayload(m);
    PayloadLength(m.data);
    hide *;
    HeaderRoundTrip(m, WireMessage(m)[2..], m.data);
    DatagramPayload(WireMessage(m)[2..]);
  }

  lemma DatagramPayload(s: seq<byte>)
    requires ParseHeader(s).Ok?
    ensures var header := ParseHeader(s);
            ParseDatagram(s) == if |header.rest| != header.value.1 then Err(UnexpectedEOF)
                                else Ok(header.value.0.(data := header.rest), [])
  {
    hide ParseHeader;
  }

  lemma WirePayload(m: UdpMessage)
    requires Writable(m.destination)
    ensures WireMessage(m)[2..] == FixedFields(m) + (WireDestination(m.destination) + m.data)
  {
  }

  // On every input the datagram decoder succeeds exactly when the stream decoder
  // succeeds with nothing left over, and then both give the same message.
  lemma DecodersAgree(s: seq<byte>, m: UdpMessage)
    ensures ParseDatagram(s) == Ok(m, []) <==> ParseStream(s) == Ok(m, [])
    ensures ParseDatagram(s).Ok? ==> ParseDatagram(s).rest == []
  {
    var header := ParseHeader(s);
    if header.Ok? && |header.rest| >= header.value.1 {
      var k := header.value.1;
      if header.rest[k..] == [] {
        assert header.rest[..k] == header.rest;
      }
    }
  }

  // Where a message without its two command bytes carries a mapped IPv6 address.
  predicate CarriesMapped(s: seq<byte>) {
    |s| >= 9 + IPV6_LEN && s[8] == ADDRESS_IPV6 && IsMapped(s[9..9 + IPV6_LEN])
  }

  // What was read, printed again, and followed by what was left.
  function Reprint(s: seq<byte>): seq<byte>
    requires ParseDestination(s).Ok? && Writable(ParseDestination(s).value)
  {
    WireDestination(ParseDestination(s).value) + ParseDestination(s).rest
  }

  lemma ReprintDomain(s: seq<byte>)
    requires ParseDestination(s).Ok? && s[0] == ADDRESS_DOMAIN
    ensures Writable(ParseDestination(s).value) && Reprint(s) == s
  {
    var p := ParseDestination(s);
    DomainParts(s);
    var body := ParseAddress(s[0], s[1..]).rest;
    assert body == BigEndian(p.value.port) + body[2..];
    hide ParseAddress;
  }

  lemma DomainParts(s: seq<byte>)
    requires |s| > 1 && s[0] == ADDRESS_DOMAIN && ParseAddress(s[0], s[1..]).Ok?
    ensures var p := ParseAddress(s[0], s[1..]);
            p.value.Domain? && |p.value.name| == s[1] && s == [s[0], s[1]] + p.value.name + p.rest
  {
    assert s[1..][1..] == s[2..];
  }

  lemma ReprintIPv4(s: seq<byte>)
    requires ParseDestination(s).Ok? && s[0] == ADDRESS_IPV4
    ensures Writable(ParseDestination(s).value) && Reprint(s) == s
  {
    var p := ParseDestination(s);
    var body := ParseAddress(s[0], s[1..]).rest;
    assert body == BigEndian(p.value.port) + body[2..];
    assert s == [s[0]] + p.value.address.ip4 + body;
  }

  lemma ReprintIPv6(s: seq<byte>)
    requires ParseDestination(s).Ok? && s[0] == ADDRESS_IPV6
    ensures |s| > IPV6_LEN && Writable(ParseDestination(s).value)
    ensures Reprint(s) == s <==> !IsMapped(s[1..1 + IPV6_LEN])
  {
    var p := ParseDestination(s);
    var body := ParseAddress(s[0], s[1..]).rest;
    assert body == BigEndian(p.value.port) + body[2..];
    assert s[1..][..IPV6_LEN] == s[1..1 + IPV6_LEN];
    if IsMapped(s[1..1 + IPV6_LEN]) {
      assert |Reprint(s)| == |s| - 12;
    } else {
      assert s == [s[0]] + p.value.address.ip6 + body;
    }
  }

  lemma ReadsCanonical(s: seq<byte>)
    requires ParseDestination(s).Ok?
    ensures s != [] && s[0] in {ADDRESS_NONE, ADDRESS_DOMAIN, ADDRESS_IPV4, ADDRESS_IPV6}
    ensures Writable(ParseDestination(s).value)
    ensures Canonical(ParseDestination(s).value) == ParseDestination(s).value
  {
  }

  lemma DestinationReprint(s: seq<byte>)
    requires ParseDestination(s).Ok?
    ensures var p := ParseDestination(s);
            && Writable(p.value) && Canonical(p.value) == p.value
            && (WireDestination(p.value) + p.rest == s
                <==> !(|s| > IPV6_LEN && s[0] == ADDRESS_IPV6 && IsMapped(s[1..1 + IPV6_LEN])))
  {
    ReadsCanonical(s);
    if s[0] == ADDRESS_NONE {
      assert Reprint(s) == s;
    }
    hide ParseDestination, WireDestination, Canonical, Writable, IsMapped;
    if s[0] == ADDRESS_DOMAIN {
      ReprintDomain(s);
    } else if s[0] == ADDRESS_IPV4 {
      ReprintIPv4(s);
    } else if s[0] == ADDRESS_IPV6 {
      ReprintIPv6(s);
    }
  }

  // The printer inverts the stream decoder: what was read, printed again and
  // followed by what was left, is the input. The one exception is an IPv4
  // address sent in mapped IPv6 form, which is printed shorter.
  lemma StreamReprint(s: seq<byte>)
    requires ParseStream(s).Ok?
    ensures var p := ParseStream(s);
            && Writable(p.value.destination)
            && Canonical(p.value.destination) == p.value.destination
            && |p.value.data| < 0x1_0000
            && (WireMessage(p.value)[2..] + p.rest == s <==> !CarriesMapped(s))
  {
    StreamParts(s);
    var d, p := ParseDestination(s[8..]), ParseStream(s);
    DestinationReprint(s[8..]);
    WireParts(p.value, p.rest);
    SplitEqual(s, 8, WireDestination(d.value) + d.rest);
    if |s| > 8 + IPV6_LEN {
      assert s[8..][1..1 + IPV6_LEN] == s[9..9 + IPV6_LEN];
    }
  }

  lemma StreamParts(s: seq<byte>)
    requires ParseStream(s).Ok?
    ensures |s| > 8 && ParseDestination(s[8..]).Ok?
    ensures var d, p := ParseDestination(s[8..]), ParseStream(s);
            && p.value.destination == d.value && |p.value.data| < 0x1_0000
            && p.value.data + p.rest == d.rest
            && FixedFields(p.value) == s[..8]
  {
    HeaderNeedsEight(s);
    StreamNeedsHeader(s);
    hide *;
    HeaderByPosition(s);
    var d := ParseDestination(s[8..]);
    var header := UdpMessage(Uint16(s[0], s[1]), Uint16(s[2], s[3]), s[4], s[5], d.value, []);
    StreamAfterHeader(s, header, Uint16(s[6], s[7]), d.rest);
    PayloadLength(ParseStream(s).value.data);
    ShortPayload(ParseStream(s).value.data);
    FixedFieldsReprint(ParseStream(s).value, s);
  }

  lemma StreamNeedsHeader(s: seq<byte>)
    ensures ParseStream(s).Ok? ==> ParseHeader(s).Ok?
  {
    hide ParseHeader;
  }

  lemma ShortPayload(data: seq<byte>)
    ensures |data| < 0x1_0000 ==> ToUint16(|data|) == |data|
  {
  }

  lemma FixedFieldsReprint(m: UdpMessage, s: seq<byte>)
    requires |s| >= 8
    requires m.sessionID == Uint16(s[0], s[1]) && m.packetID == Uint16(s[2], s[3])
    requires m.fragmentTotal == s[4] && m.fragmentID == s[5]
    requires ToUint16(|m.data|) == Uint16(s[6], s[7])
    ensures FixedFields(m) == s[..8]
  {
    assert FixedFields(m) == [s[0], s[1]] + [s[2], s[3]] + [s[4]] + [s[5]] + [s[6], s[7]];
  }

  lemma SplitEqual(s: seq<byte>, k: nat, t: seq<byte>)
    requires k <= |s|
    ensures s[..k] + t == s <==> t == s[k..]
  {
  }

  lemma HeaderNeedsEight(s: seq<byte>)
    ensures ParseHeader(s).Ok? ==> |s| > 8
  {
  }

  // Reading a field fails exactly when the input is too short for it, and tells an
  // input that ends before the field from one that ends inside.
  lemma TakeFails(s: seq<byte>, n: nat)
    ensures Take(s, n).Ok? <==> n <= |s|
    ensures Take(s, n).Ok? ==> Take(s, n).value == s[..n] && Take(s, n).rest == s[n..]
    ensures Take(s, n).Err? ==> Take(s, n).error == if |s| == 0 then EOF else UnexpectedEOF
  {
  }

  // The byte layout of section 'Packet' of the TUIC version 5 protocol.
  lemma WireLayout(m: UdpMessage)
    requires Writable(m.destination)
    ensures var b := WireMessage(m);
            && |b| == m.HeaderSize() + |m.data|
            && b[0] == 5 && b[1] == 2
            && Uint16(b[2], b[3]) == m.sessionID
            && Uint16(b[4], b[5]) == m.packetID
            && b[6] == m.fragmentTotal
            && b[7] == m.fragmentID
            && Uint16(b[8], b[9]) == ToUint16(|m.data|)
            && (b[10] == 0xff <==> m.destination == NoDestination)
            && (m.destination.Destination? ==>
                  && b[10] == (if m.destination.address.Domain? then 0 else if m.destination.address.IPv4? then 1 else 2)
                  && Uint16(b[m.HeaderSize() - 2], b[m.HeaderSize() - 1]) == m.destination.port)
            && b[m.HeaderSize()..] == m.data
  {
  }

  // The address: a domain name with its length before it, or the bytes of an IP
  // address in network order.
  lemma AddressLayout(m: UdpMessage)
    requires m.destination.Destination? && Writable(m.destination)
    ensures var b := WireMessage(m)[11..m.HeaderSize() - 2];
            match m.destination.address
            case Domain(name) => b == [|name|] + name
            case IPv4(ip) => b == ip
            case IPv6(ip) => b == ip
  {
    var w := WireDestination(m.destination);
    AddressBytes(m.destination);
    assert WireMessage(m)[10..m.HeaderSize()] == w;
    hide WireDestination, FixedFields;
    assert WireMessage(m)[11..m.HeaderSize() - 2] == w[1..|w| - 2];
  }

  lemma AddressBytes(d: Destination)
    requires d.Destination? && Writable(d)
    ensures var w := WireDestination(d);
            match d.address
            case Domain(name) => w[1..|w| - 2] == [|name|] + name
            case IPv4(ip) => w[1..|w| - 2] == ip
            case IPv6(ip) => w[1..|w| - 2] == ip
  {
  }
}
