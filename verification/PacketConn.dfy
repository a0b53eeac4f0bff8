// Sending UDP packets over a TUIC connection: packet IDs, fragmentation with one
// retry, and what the peer makes of the datagrams.
module PacketConn {
  import opened Bytes
  import opened Codec
  import opened Fragmentation
  import opened Defragger
  import opened Reassembly
  import opened Wrappers

  // ---------- Packet IDs ----------

  const MAX_UINT16 := 0xffff

  // atomic.Uint32.Add(1)
  function Bump(counter: uint32): uint32 { (counter + 1) % 0x1_0000_0000 }

  function PacketID(counter: uint32): uint16 { counter % MAX_UINT16 }

  function After(counter: uint32, k: nat): uint32 {
    if k == 0 then counter else Bump(After(counter, k - 1))
  }

  lemma BumpIsModular(n: nat)
    ensures Bump(n % 0x1_0000_0000) == (n + 1) % 0x1_0000_0000
  {
  }

  lemma {:induction false} AfterIsModular(counter: uint32, k: nat)
    ensures After(counter, k) == (counter + k) % 0x1_0000_0000
  {
    if k > 0 {
      AfterIsModular(counter, k - 1);
      BumpIsModular(counter + (k - 1));
      hide Bump;
    }
  }

  // Of two writes k apart, with 0 < k < 65535, the packet IDs collide exactly
  // when they are consecutive and the counter wraps between them; 65535 is never
  // used as a packet ID.
  lemma {:induction false} PacketIDCollisions(counter: uint32, k: nat)
    requires 0 < k < MAX_UINT16
    ensures PacketID(After(counter, k)) == PacketID(counter) <==> k == 1 && counter == 0xffff_ffff
    ensures PacketID(counter) != MAX_UINT16
  {
    AfterIsModular(counter, k);
    var c' := After(counter, k);
    if counter + k < 0x1_0000_0000 {
      assert c' == counter + k;
    } else {
      assert c' == counter + k - 0x1_0000_0000;
      assert c' == counter + (k - 1) - 65537 * MAX_UINT16;
    }
  }

  // ---------- Transport ----------

  datatype Outcome = Sent | TooLarge(max: nat) | Broken | Closed | Invalid | Short

  // A QUIC connection. Its datagram size limit may be another one at every send,
  // and any send may break; limits records the limit each datagram met.
  class Transport {
    var sent: seq<seq<byte>>
    ghost var limits: seq<nat>

    method SendDatagram(bytes: seq<byte>) returns (r: Outcome, ghost limit: nat)
      modifies this
      ensures limits == old(limits) + [limit]
      ensures r == Sent || r == Broken || r == TooLarge(limit)
      ensures r.TooLarge? <==> |bytes| > limit
      ensures sent == if r.Sent? then old(sent) + [bytes] else old(sent)
    {
      var max: nat := *;
      limit := max;
      limits := limits + [limit];
      if |bytes| > max {
        return TooLarge(max), limit;
      }
      var up: bool := *;
      if up {
        sent := sent + [bytes];
        return Sent, limit;
      }
      return Broken, limit;
    }

    // One uni-stream per packet; a stream has no size limit.
    method SendStream(bytes: seq<byte>) returns (r: Outcome)
      modifies this`sent
      ensures r == Sent || r == Broken
      ensures sent == if r.Sent? then old(sent) + [bytes] else old(sent)
    {
      var up: bool := *;
      if up {
        sent := sent + [bytes];
        return Sent;
      }
      return Broken;
    }
  }

  ghost predicate AllWritable(messages: seq<UdpMessage>) {
    forall m :: m in messages ==> Writable(m.destination)
  }

  // The packed forms of a list of messages.
  function Wires(messages: seq<UdpMessage>): seq<seq<byte>>
    requires AllWritable(messages)
  {
    seq(|messages|, i requires 0 <= i < |messages| => WireMessage(messages[i]))
  }

  // What sending ws in order can come to, given the limits met: all of it, or a
  // proper prefix because the next piece is too large or the connection breaks.
  ghost predicate Attempt(
      ws: seq<seq<byte>>, limits: seq<nat>, before: seq<seq<byte>>, after: seq<seq<byte>>, r: Outcome)
  {
    && 0 < |limits| <= |ws|
    && var n := |limits| - 1;
    && (forall i :: 0 <= i < n ==> |ws[i]| <= limits[i])
    && match r
       case Sent => n + 1 == |ws| && |ws[n]| <= limits[n] && after == before + ws
       case TooLarge(max) => max == limits[n] < |ws[n]| && after == before + ws[..n]
       case Broken => |ws[n]| <= limits[n] && after == before + ws[..n]
       case _ => false
  }

  // Writing a message: one attempt at the packet size in force, and after a
  // too-large answer a second one at a size that fits that answer. What the first
  // attempt has sent stays sent.
  ghost predicate Datagrams(
      m: UdpMessage, oldMTU: int, mtu: int, limits: seq<nat>, before: seq<seq<byte>>, after: seq<seq<byte>>, r: Outcome)
    requires Writable(m.destination)
  {
    || (mtu == oldMTU && !r.TooLarge? && Attempt(Pieces(m, oldMTU), limits, before, after, r))
    || exists k: nat :: k < |limits| && Twice(m, oldMTU, mtu, limits, k, before, after, r)
  }

  // The second attempt begins after k pieces of the first one and the refusal.
  ghost predicate Twice(
      m: UdpMessage, oldMTU: int, mtu: int, limits: seq<nat>, k: nat,
      before: seq<seq<byte>>, after: seq<seq<byte>>, r: Outcome)
    requires Writable(m.destination) && k < |limits|
  {
    && k < |Pieces(m, oldMTU)| && mtu + 3 == limits[k]
    && Attempt(Pieces(m, oldMTU), limits[..k + 1], before, before + Pieces(m, oldMTU)[..k], TooLarge(limits[k]))
    && Attempt(Pieces(m, mtu), limits[k + 1..], before + Pieces(m, oldMTU)[..k], after, r)
  }

  // What writing m comes to: a message that cannot be packed changes nothing, one
  // on a stream goes out whole or not at all.
  ghost predicate Written(
      m: UdpMessage, stream: bool, oldMTU: int, mtu: int, limits: seq<nat>,
      before: seq<seq<byte>>, after: seq<seq<byte>>, r: Outcome)
  {
    if !Writable(m.destination) then
      r == Short && after == before && mtu == oldMTU
    else if stream then
      mtu == oldMTU && (r == Sent || r == Broken) && after == before + if r == Sent then [WireMessage(m)] else []
    else
      Datagrams(m, oldMTU, mtu, limits, before, after, r)
  }

  // The packed fragments of m.
  function Pieces(m: UdpMessage, mtu: int): seq<seq<byte>>
    requires Writable(m.destination)
  {
    FragmentsWritable(m, mtu);
    Wires(Fragments(m, mtu))
  }

  lemma FragmentsWritable(m: UdpMessage, mtu: int)
    requires Writable(m.destination)
    ensures AllWritable(Fragments(m, mtu))
  {
  }

  // The peer reads one piece as the message itself, whether it is a datagram or a
  // stream.
  ghost predicate ReadWhole(m: UdpMessage, arrived: seq<seq<byte>>) {
    && |arrived| == 1 && Decodes(arrived[0])
    && Decode(arrived[0]) == m && ParseStream(arrived[0][2..]) == Ok(m, [])
  }

  // The peer gets nothing from the datagrams before the last one, and then the
  // session, packet ID, destination and data of m.
  ghost predicate ReadAtLast(m: UdpMessage, arrived: seq<seq<byte>>) {
    && arrived != [] && (forall b :: b in arrived ==> Decodes(b))
    && GivenAtLast(m, Decoded(arrived))
  }

  ghost predicate GivenAtLast(m: UdpMessage, trace: seq<UdpMessage>)
    requires trace != []
  {
    && (forall j :: 0 <= j < |trace| - 1 ==> Output(map[], trace, j) == None)
    && Output(map[], trace, |trace| - 1).Some?
    && var got := Output(map[], trace, |trace| - 1).value;
    && got.sessionID == m.sessionID && got.packetID == m.packetID
    && got.destination == m.destination && got.data == m.data
  }

  // What the peer makes of what a write has added to sent: a message that goes over
  // a stream or fits its packet is read as it is, and one that is split into at
  // most 255 fragments when the last of them arrives.
  ghost predicate ReadAs(m: UdpMessage, stream: bool, mtu: int, arrived: seq<seq<byte>>) {
    && (stream || m.HeaderSize() + |m.data| <= mtu ==> ReadWhole(m, arrived))
    && (!stream && NeedsSplit(m, mtu) && CeilDiv(|m.data|, mtu - m.HeaderSize()) <= 255 ==> ReadAtLast(m, arrived))
  }

  // Nothing of a first attempt has been left behind: there was one attempt only, or
  // no more was sent than the second one takes.
  predicate AtOnce(
      m: UdpMessage, stream: bool, oldMTU: int, mtu: int, before: seq<seq<byte>>, after: seq<seq<byte>>)
  {
    stream || mtu == oldMTU || |after| == |before| + |Fragments(m, mtu)|
  }

  class UdpPacketConn {
    const sessionID: uint16
    const udpStream: bool
    const transport: Transport
    var udpMTU: int
    var packetID: uint32
    var closed: bool

    constructor (sessionID: uint16, udpStream: bool, transport: Transport)
      ensures udpMTU == 1197 && packetID == 0 && !closed
      ensures this.sessionID == sessionID && this.udpStream == udpStream && this.transport == transport
    {
      this.sessionID := sessionID;
      this.udpStream := udpStream;
      this.transport := transport;
      udpMTU := DEFAULT_MTU;
      packetID := 0;
      closed := false;
    }

    // A refused write changes nothing; any other takes the next packet ID. What a
    // successful one sends in one attempt gives the peer, in that order, exactly
    // this session, packet ID, destination and data.
    method WritePacket(data: seq<byte>, destination: Destination) returns (r: Outcome)
      modifies this, transport
      ensures closed == old(closed)
      ensures r == Closed <==> closed
      ensures r == Invalid <==> !closed && |data| <= 0xffff && destination == NoDestination
      ensures closed || |data| > 0xffff || destination == NoDestination ==>
        && (!closed && |data| > 0xffff ==> r == TooLarge(0xffff))
        && transport.sent == old(transport.sent) && packetID == old(packetID) && udpMTU == old(udpMTU)
      ensures !closed && |data| <= 0xffff && destination != NoDestination ==>
        var m := UdpMessage(sessionID := sessionID, packetID := (old(packetID) + 1) % 0x1_0000_0000 % 0xffff,
                            fragmentTotal := 1, fragmentID := 0, destination := destination, data := data);
        && packetID == (old(packetID) + 1) % 0x1_0000_0000
        && old(transport.limits) <= transport.limits
        && Written(m, udpStream, old(udpMTU), udpMTU,
                   transport.limits[|old(transport.limits)|..], old(transport.sent), transport.sent, r)
        && (r == Sent && Portable(m) && AtOnce(m, udpStream, old(udpMTU), udpMTU, old(transport.sent), transport.sent) ==>
              && old(transport.sent) <= transport.sent
              && ReadAs(m, udpStream, udpMTU, transport.sent[|old(transport.sent)|..]))
    {
      if closed {
        return Closed;
      }
      if |data| > 0xffff {
        return TooLarge(0xffff);
      }
      if destination == NoDestination {
        return Invalid;
      }
      packetID := Bump(packetID);
      var m := UdpMessage(sessionID, PacketID(packetID), 1, 0, destination, data);
      r := WritePacketOrFragments(m);
      SentIsReadAs(m, udpStream, old(udpMTU), udpMTU, transport.limits[|old(transport.limits)|..],
                   old(transport.sent), transport.sent, r);
      hide Written, ReadAs, Portable;
    }

    method WritePacketOrFragments(m: UdpMessage) returns (r: Outcome)
      modifies this`udpMTU, transport
      ensures old(transport.limits) <= transport.limits
      ensures Written(m, udpStream, old(udpMTU), udpMTU, transport.limits[|old(transport.limits)|..],
                      old(transport.sent), transport.sent, r)
    {
      hide *;
      ghost var limits;
      r, limits := FirstAttempt(m);
      if !r.TooLarge? {
        assert transport.limits[|old(transport.limits)|..] == limits;
        return;
      }
      ghost var max, middle, more := r.max, transport.sent, [];
      udpMTU := r.max - 3;
      var fragments := FragUDPMessage(m, udpMTU);
      r, more := WritePackets(m, fragments, udpMTU);
      assert transport.limits[|old(transport.limits)|..] == limits + more;
      TwoAttempts(m, old(udpMTU), max, limits, more, old(transport.sent), middle, transport.sent, r);
    }

    // At the packet size in force.
    method FirstAttempt(m: UdpMessage) returns (r: Outcome, ghost limits: seq<nat>)
      modifies transport
      ensures transport.limits == old(transport.limits) + limits
      ensures !r.TooLarge? ==>
        Written(m, udpStream, udpMTU, udpMTU, limits, old(transport.sent), transport.sent, r)
      ensures r.TooLarge? ==>
        && !udpStream && Writable(m.destination) && limits != []
        && Attempt(Pieces(m, udpMTU), limits, old(transport.sent), transport.sent, r)
    {
      if !udpStream && |m.data| > udpMTU - m.HeaderSize() {
        var fragments := FragUDPMessage(m, udpMTU);
        r, limits := WritePackets(m, fragments, udpMTU);
      } else {
        OnePiece(m, udpMTU);
        r, limits := WriteOne(m);
      }
      AttemptMakesProgress(m, udpMTU, limits, old(transport.sent), transport.sent, r);
      hide Pieces, Attempt, Datagrams;
    }

    // One attempt at a message that fits, or at any message over streams.
    method WriteOne(m: UdpMessage) returns (r: Outcome, ghost limits: seq<nat>)
      modifies transport
      ensures !Writable(m.destination) ==>
        r == Short && transport.sent == old(transport.sent) && limits == []
      ensures Writable(m.destination) && udpStream ==>
        (r == Sent || r == Broken) && transport.sent == old(transport.sent) + if r == Sent then [WireMessage(m)] else []
      ensures Writable(m.destination) && !udpStream ==>
        Attempt([WireMessage(m)], limits, old(transport.sent), transport.sent, r)
      ensures transport.limits == old(transport.limits) + limits
    {
      limits := [];
      var packing := Pack(m);
      if packing.ShortBuffer? {
        return Short, limits;
      }
      if udpStream {
        r := transport.SendStream(packing.bytes);
      } else {
        ghost var limit;
        r, limit := transport.SendDatagram(packing.bytes);
        limits := [limit];
        if !r.Sent? {
          assert transport.sent == old(transport.sent) + [WireMessage(m)][..0];
        }
      }
    }

    method WritePackets(m: UdpMessage, fragments: seq<UdpMessage>, mtu: int) returns (r: Outcome, ghost limits: seq<nat>)
      requires !udpStream && fragments == Fragments(m, mtu)
      modifies transport
      ensures !Writable(m.destination) ==>
        r == Short && transport.sent == old(transport.sent) && limits == []
      ensures Writable(m.destination) ==>
        Attempt(Pieces(m, mtu), limits, old(transport.sent), transport.sent, r)
      ensures transport.limits == old(transport.limits) + limits
    {
      r, limits := Sent, [];
      if Writable(m.destination) {
        FragmentsWritable(m, mtu);
      }
      for i := 0 to |fragments|
        invariant transport.limits == old(transport.limits) + limits
        invariant Writable(m.destination) ==>
          Passed(Pieces(m, mtu), limits, old(transport.sent), transport.sent, i) && r == Sent
        invariant !Writable(m.destination) ==> i == 0 && transport.sent == old(transport.sent) && limits == []
      {
        ghost var now, more := transport.sent, [];
        r, more := WriteOne(fragments[i]);
        if Writable(m.destination) {
          hide Attempt, Passed;
          OneMorePasses(Pieces(m, mtu), limits, more, old(transport.sent), now, transport.sent, i, r);
        }
        limits := limits + more;
        if r != Sent {
          return;
        }
      }
      if Writable(m.destination) {
        AllPassed(Pieces(m, mtu), limits, old(transport.sent), transport.sent);
      }
    }
  }

  lemma OnePiece(m: UdpMessage, mtu: int)
    ensures Writable(m.destination) && |m.data| <= mtu - m.HeaderSize() ==> Pieces(m, mtu) == [WireMessage(m)]
  {
  }

  lemma AttemptMakesProgress(
      m: UdpMessage, mtu: int, limits: seq<nat>, before: seq<seq<byte>>, after: seq<seq<byte>>, r: Outcome)
    ensures Writable(m.destination) && Attempt(Pieces(m, mtu), limits, before, after, r) ==>
      limits != [] && (!r.TooLarge? ==> Datagrams(m, mtu, mtu, limits, before, after, r))
  {
    hide Pieces;
  }

  lemma TwoAttempts(
      m: UdpMessage, oldMTU: int, max: nat, limits: seq<nat>, more: seq<nat>,
      before: seq<seq<byte>>, middle: seq<seq<byte>>, after: seq<seq<byte>>, r: Outcome)
    requires Writable(m.destination) && limits != []
    requires Attempt(Pieces(m, oldMTU), limits, before, middle, TooLarge(max))
    requires Attempt(Pieces(m, max - 3), more, middle, after, r)
    ensures Written(m, false, oldMTU, max - 3, limits + more, before, after, r)
  {
    var all, k := limits + more, |limits| - 1;
    assert all[..k + 1] == limits && all[k + 1..] == more && all[k] == limits[k];
    hide Pieces;
    assert Twice(m, oldMTU, max - 3, all, k, before, after, r);
  }

  // The first n pieces have gone out.
  ghost predicate Passed(ws: seq<seq<byte>>, limits: seq<nat>, before: seq<seq<byte>>, now: seq<seq<byte>>, n: nat) {
    && |limits| == n <= |ws| && now == before + ws[..n]
    && forall i :: 0 <= i < n ==> |ws[i]| <= limits[i]
  }

  lemma OneMorePasses(
      ws: seq<seq<byte>>, limits: seq<nat>, more: seq<nat>,
      before: seq<seq<byte>>, now: seq<seq<byte>>, after: seq<seq<byte>>, n: nat, r: Outcome)
    requires n < |ws| && Passed(ws, limits, before, now, n) && Attempt([ws[n]], more, now, after, r)
    ensures if r == Sent then Passed(ws, limits + more, before, after, n + 1)
            else Attempt(ws, limits + more, before, after, r)
  {
    var one := [ws[n]];
    assert now + one[..0] == now;
    if r == Sent {
      assert ws[..n + 1] == ws[..n] + [ws[n]];
    }
  }

  lemma AllPassed(ws: seq<seq<byte>>, limits: seq<nat>, before: seq<seq<byte>>, now: seq<seq<byte>>)
    requires ws != [] && Passed(ws, limits, before, now, |ws|)
    ensures Attempt(ws, limits, before, now, Sent)
  {
    assert ws[..|ws|] == ws;
  }

  // ---------- The second attempt fits ----------

  // The second attempt takes the size that the refusal allows: as long as the limit
  // does not fall again, none of its pieces is refused for its size, unless the header
  // leaves no room.
  lemma RetryFits(
      m: UdpMessage, oldMTU: int, mtu: int, limits: seq<nat>, k: nat,
      before: seq<seq<byte>>, after: seq<seq<byte>>, r: Outcome)
    requires Writable(m.destination) && k < |limits| && Twice(m, oldMTU, mtu, limits, k, before, after, r)
    requires m.HeaderSize() < mtu && forall i :: k < i < |limits| ==> limits[i] >= limits[k]
    ensures !r.TooLarge?
  {
    FragmentsFit(m, mtu);
    FragmentsWritable(m, mtu);
    hide Fragments, WireMessage;
    var rest := limits[k + 1..];
    forall n | 0 <= n < |rest| && n < |Pieces(m, mtu)| ensures |Pieces(m, mtu)[n]| <= rest[n] {
      assert rest[n] == limits[k + 1 + n];
      assert Pieces(m, mtu)[n] == WireMessage(Fragments(m, mtu)[n]);
    }
    hide Pieces;
  }

  // ---------- From writer to reader ----------

  // What the peer decodes from a datagram, after the two command bytes.
  predicate Decodes(b: seq<byte>) { |b| >= 2 && ParseDatagram(b[2..]).Ok? }

  function Decode(b: seq<byte>): UdpMessage
    requires Decodes(b)
  {
    ParseDatagram(b[2..]).value
  }

  function Decoded(arrivals: seq<seq<byte>>): seq<UdpMessage>
    requires forall b :: b in arrivals ==> Decodes(b)
  {
    seq(|arrivals|, i requires 0 <= i < |arrivals| => Decode(arrivals[i]))
  }

  // What a datagram can carry comes out as it went in.
  ghost predicate Portable(m: UdpMessage) {
    Writable(m.destination) && Canonical(m.destination) == m.destination && |m.data| <= 0xffff
  }

  lemma PortableDecodes(m: UdpMessage)
    requires Portable(m)
    ensures Decodes(WireMessage(m)) && Decode(WireMessage(m)) == m
  {
    hide WireMessage, ParseDatagram, Canonical;
    DatagramRoundTrip(m);
  }

  // The datagrams of a message survive packing and decoding unchanged.
  lemma FragmentDecodes(m: UdpMessage, frags: seq<UdpMessage>, i: nat)
    requires IsSplit(m, frags) && i < |frags| && Portable(m)
    ensures Writable(frags[i].destination)
    ensures Decodes(WireMessage(frags[i])) && Decode(WireMessage(frags[i])) == frags[i]
  {
    hide IsSplit;
    SplitFacts(m, frags);
    PayloadInJoin(Payloads(frags), i);
    hide WireMessage, ParseDatagram, Join, Decode, Decodes;
    PortableDecodes(frags[i]);
  }

  lemma {:induction false} PayloadInJoin(chunks: seq<seq<byte>>, i: nat)
    requires i < |chunks|
    ensures |chunks[i]| <= |Join(chunks)|
  {
    if i > 0 {
      PayloadInJoin(chunks[1..], i - 1);
    }
  }

  // A write that sends everything in one attempt is read as what was written.
  lemma SentIsReadAs(
      m: UdpMessage, stream: bool, oldMTU: int, mtu: int, limits: seq<nat>,
      before: seq<seq<byte>>, after: seq<seq<byte>>, r: Outcome)
    requires m.fragmentTotal == 1 && Written(m, stream, oldMTU, mtu, limits, before, after, r)
    ensures r == Sent && Portable(m) && AtOnce(m, stream, oldMTU, mtu, before, after) ==>
      before <= after && ReadAs(m, stream, mtu, after[|before|..])
  {
    if r == Sent && Portable(m) && AtOnce(m, stream, oldMTU, mtu, before, after) {
      if stream {
        Suffix(before, [WireMessage(m)]);
        WholeIsReadAs(m, stream, mtu);
      } else {
        SentAtOnce(m, oldMTU, mtu, limits, before, after);
        Suffix(before, Pieces(m, mtu));
        if NeedsSplit(m, mtu) {
          SplitIsReadAs(m, mtu);
        } else {
          WholeIsReadAs(m, stream, mtu);
        }
      }
      hide ReadAs, WireMessage, Portable, Datagrams;
    }
  }

  lemma Suffix(before: seq<seq<byte>>, more: seq<seq<byte>>)
    ensures before <= before + more && (before + more)[|before|..] == more
  {
  }

  lemma SentAtOnce(
      m: UdpMessage, oldMTU: int, mtu: int, limits: seq<nat>, before: seq<seq<byte>>, after: seq<seq<byte>>)
    requires Writable(m.destination) && Datagrams(m, oldMTU, mtu, limits, before, after, Sent)
    requires AtOnce(m, false, oldMTU, mtu, before, after)
    ensures after == before + Pieces(m, mtu)
  {
    hide Fragments, Twice, WireMessage;
    if !(mtu == oldMTU && Attempt(Pieces(m, oldMTU), limits, before, after, Sent)) {
      var k: nat :| k < |limits| && Twice(m, oldMTU, mtu, limits, k, before, after, Sent);
      NothingBefore(m, oldMTU, mtu, limits, k, before, after);
    }
  }

  lemma NothingBefore(
      m: UdpMessage, oldMTU: int, mtu: int, limits: seq<nat>, k: nat, before: seq<seq<byte>>, after: seq<seq<byte>>)
    requires Writable(m.destination) && k < |limits| && Twice(m, oldMTU, mtu, limits, k, before, after, Sent)
    requires AtOnce(m, false, oldMTU, mtu, before, after)
    ensures after == before + Pieces(m, mtu)
  {
    LeftBehind(m, oldMTU, mtu, limits, k, before, after, Sent);
    hide Fragments, WireMessage;
    assert |Pieces(m, mtu)| == |Fragments(m, mtu)|;
    hide Pieces;
    assert before + Pieces(m, oldMTU)[..0] == before;
  }

  lemma WholeIsReadAs(m: UdpMessage, stream: bool, mtu: int)
    requires Portable(m) && (stream || !NeedsSplit(m, mtu))
    ensures ReadAs(m, stream, mtu, [WireMessage(m)])
  {
    WholeArrives(m);
    hide ReadWhole, ReadAtLast, WireMessage, Portable;
  }

  lemma WholeArrives(m: UdpMessage)
    requires Portable(m)
    ensures ReadWhole(m, [WireMessage(m)])
  {
    hide WireMessage, Canonical, ParseStream, Decode, Decodes;
    PortableDecodes(m);
    StreamRoundTrip(m, []);
    assert WireMessage(m)[2..] + [] == WireMessage(m)[2..];
    assert m.data[..|m.data|] == m.data && m.data[|m.data|..] + [] == [];
  }

  lemma SplitIsReadAs(m: UdpMessage, mtu: int)
    requires Portable(m) && NeedsSplit(m, mtu)
    ensures ReadAs(m, false, mtu, Pieces(m, mtu))
  {
    hide ReadWhole, ReadAtLast, Pieces, Fragments, CeilDiv, Canonical, WireMessage;
    FragmentCount(m, mtu);
    if |Fragments(m, mtu)| <= 255 {
      SplitArrives(m, mtu);
    }
  }

  lemma SplitArrives(m: UdpMessage, mtu: int)
    requires Portable(m) && NeedsSplit(m, mtu) && |Fragments(m, mtu)| <= 255
    ensures ReadAtLast(m, Pieces(m, mtu))
  {
    var f := Fragments(m, mtu);
    FragmentsAreSplit(m, f);
    GivenInOrder(m, f);
    hide Fragments, GivenAtLast, WireMessage, IsSplit, AllPortable, Decode, Decodes, Portable;
    FragmentsPortable(m, mtu);
    WiresDecode(f, f);
  }

  lemma GivenInOrder(m: UdpMessage, f: seq<UdpMessage>)
    requires IsSplit(m, f)
    ensures f != [] && GivenAtLast(m, f)
  {
    hide IsSplit, Output;
    InOrder(m, f);
  }

  // m can be recovered from its packed fragments, and every arrival decodes to a
  // fragment of m or to something that does not compete with them.
  ghost predicate Arrivals(m: UdpMessage, frags: seq<UdpMessage>, arrivals: seq<seq<byte>>) {
    && IsSplit(m, frags) && AllWritable(frags)
    && Portable(m)
    && (forall b :: b in arrivals ==> Decodes(b))
    && (forall b :: b in arrivals && Competes(Decode(b), m) ==> b in Wires(frags))
  }

  // Two fragments of a message differ, and so do their datagrams: an arrival
  // decodes to a fragment exactly when it is that fragment's datagram.
  lemma DecodesToFragment(m: UdpMessage, frags: seq<UdpMessage>, arrivals: seq<seq<byte>>, b: seq<byte>, i: nat)
    requires Arrivals(m, frags, arrivals) && b in arrivals && i < |frags|
    ensures Decode(b) == frags[i] <==> b == Wires(frags)[i]
    ensures Competes(Decode(b), m) ==> Decode(b) in frags
  {
    SplitFacts(m, frags);
    FragmentDecodes(m, frags, i);
    if Competes(Decode(b), m) {
      var k :| 0 <= k < |frags| && b == Wires(frags)[k];
      FragmentDecodes(m, frags, k);
    }
  }

  lemma DecodedAdmissible(m: UdpMessage, frags: seq<UdpMessage>, arrivals: seq<seq<byte>>)
    requires Arrivals(m, frags, arrivals)
    ensures Admissible(m, frags, Decoded(arrivals))
  {
    var trace := Decoded(arrivals);
    SplitFacts(m, frags);
    forall e | e in trace && Competes(e, m) ensures e in frags {
      var j :| 0 <= j < |trace| && trace[j] == e;
      assert arrivals[j] in arrivals;
      DecodesToFragment(m, frags, arrivals, arrivals[j], 0);
    }
  }

  // A fragment has been decoded exactly when its datagram has arrived.
  lemma SeenIffArrived(m: UdpMessage, frags: seq<UdpMessage>, arrivals: seq<seq<byte>>, n: nat, i: nat)
    requires Arrivals(m, frags, arrivals) && n <= |arrivals| && i < |frags|
    ensures frags[i] in Decoded(arrivals)[..n] <==> Wires(frags)[i] in arrivals[..n]
  {
    var trace := Decoded(arrivals);
    forall j | 0 <= j < n ensures trace[..n][j] == frags[i] <==> arrivals[..n][j] == Wires(frags)[i] {
      assert arrivals[j] in arrivals;
      DecodesToFragment(m, frags, arrivals, arrivals[j], i);
    }
    if frags[i] in trace[..n] {
      var j :| 0 <= j < n && trace[..n][j] == frags[i];
      assert arrivals[..n][j] == Wires(frags)[i];
    }
    if Wires(frags)[i] in arrivals[..n] {
      var j :| 0 <= j < n && arrivals[..n][j] == Wires(frags)[i];
      assert trace[..n][j] == frags[i];
    }
  }

  // End to end: let the datagrams of one written message arrive in any order,
  // repeated at will, among other datagrams that do not compete for its packet
  // ID. If only the last arrival completes the set, the receiver's defragger
  // hands over nothing for this message before it, and then exactly the written
  // session, packet ID, destination and data.
  lemma DeliveredEndToEnd(m: UdpMessage, frags: seq<UdpMessage>, t: Table, arrivals: seq<seq<byte>>, lost: nat)
    requires Arrivals(m, frags, arrivals) && m.packetID !in t && arrivals != []
    requires lost < |frags| && Wires(frags)[lost] !in arrivals[..|arrivals| - 1]
    requires forall w :: w in Wires(frags) ==> w in arrivals
    ensures forall j :: 0 <= j < |arrivals| - 1 && arrivals[j] in Wires(frags) ==> Output(t, Decoded(arrivals), j) == None
    ensures Output(t, Decoded(arrivals), |arrivals| - 1) == Some(Reassembled(m, |frags|))
  {
    hide Output, WireMessage, Decode, Decodes, Fragments, IsSplit, Admissible;
    var trace, n := Decoded(arrivals), |arrivals|;
    assert trace[..n] == trace && arrivals[..n] == arrivals;
    DecodedAdmissible(m, frags, arrivals);
    SeenIffArrived(m, frags, arrivals, n - 1, lost);
    forall i | 0 <= i < |frags| ensures frags[i] in trace {
      assert Wires(frags)[i] in arrivals;
      SeenIffArrived(m, frags, arrivals, n, i);
    }
    ReassembledOnce(m, frags, t, trace);
    forall j | 0 <= j < n - 1 && arrivals[j] in Wires(frags) ensures Output(t, trace, j) == None {
      var k :| 0 <= k < |frags| && arrivals[j] == Wires(frags)[k];
      DecodesToFragment(m, frags, arrivals, arrivals[j], k);
      assert trace[j] in frags;
    }
  }

  // ---------- When wrong data can be read ----------

  // Some arrivals of these datagrams alone make the receiver hand over data that
  // was not written.
  ghost predicate ReadsWrong(m: UdpMessage, sent: seq<seq<byte>>, arrivals: seq<seq<byte>>, j: nat) {
    && (forall b :: b in arrivals ==> b in sent && Decodes(b))
    && j < |arrivals|
    && Output(map[], Decoded(arrivals), j).Some? && Output(map[], Decoded(arrivals), j).value.data != m.data
  }

  ghost predicate AllPortable(pieces: seq<UdpMessage>) { forall f :: f in pieces ==> Portable(f) }

  // Arrivals of datagrams are arrivals of what they carry, and the other way round.
  lemma ReadsWrongIff(m: UdpMessage, pieces: seq<UdpMessage>)
    requires AllPortable(pieces) && AllWritable(pieces)
    ensures (exists arrivals, j :: ReadsWrong(m, Wires(pieces), arrivals, j)) <==>
            (exists trace, j :: YieldsWrong(m, pieces, trace, j))
  {
    hide Output, WireMessage, Decode, Decodes, Portable;
    forall arrivals, j | ReadsWrong(m, Wires(pieces), arrivals, j) ensures YieldsWrong(m, pieces, Decoded(arrivals), j) {
      forall e | e in Decoded(arrivals) ensures e in pieces {
        var i :| 0 <= i < |arrivals| && Decoded(arrivals)[i] == e;
        assert arrivals[i] in arrivals;
        var k :| 0 <= k < |pieces| && arrivals[i] == Wires(pieces)[k];
        PortableDecodes(pieces[k]);
      }
    }
    forall trace, j | YieldsWrong(m, pieces, trace, j)
      ensures exists arrivals, j :: ReadsWrong(m, Wires(pieces), arrivals, j)
    {
      WiresDecode(pieces, trace);
      assert ReadsWrong(m, Wires(pieces), Wires(trace), j);
    }
  }

  lemma WiresDecode(pieces: seq<UdpMessage>, trace: seq<UdpMessage>)
    requires AllPortable(pieces) && AllWritable(pieces) && forall e :: e in trace ==> e in pieces
    ensures AllWritable(trace) && forall b :: b in Wires(trace) ==> b in Wires(pieces) && Decodes(b)
    ensures Decoded(Wires(trace)) == trace
  {
    hide WireMessage, Decode, Decodes, Portable;
    forall i | 0 <= i < |trace|
      ensures Writable(trace[i].destination) && WireMessage(trace[i]) in Wires(pieces)
      ensures Decodes(WireMessage(trace[i])) && Decode(WireMessage(trace[i])) == trace[i]
    {
      assert trace[i] in trace;
      var k :| 0 <= k < |pieces| && pieces[k] == trace[i];
      assert Wires(pieces)[k] == WireMessage(trace[i]);
      PortableDecodes(trace[i]);
    }
  }

  lemma FragmentsPortable(m: UdpMessage, mtu: int)
    requires Portable(m)
    ensures AllPortable(Fragments(m, mtu)) && AllWritable(Fragments(m, mtu))
  {
    FragmentsWritable(m, mtu);
    if NeedsSplit(m, mtu) {
      FragmentForm(m, mtu);
      FragmentsJoin(m, mtu);
      var f := Fragments(m, mtu);
      hide Fragments, Join;
      forall i | 0 <= i < |f| ensures Portable(f[i]) {
        PayloadInJoin(Payloads(f), i);
      }
    }
  }

  // Pieces of the first attempt are left on the wire only by a message that was
  // split, and only if the limit fell under the size of its pieces meanwhile.
  lemma LeftBehind(
      m: UdpMessage, oldMTU: int, mtu: int, limits: seq<nat>, k: nat,
      before: seq<seq<byte>>, after: seq<seq<byte>>, r: Outcome)
    requires Writable(m.destination) && k < |limits| && Twice(m, oldMTU, mtu, limits, k, before, after, r)
    ensures k == 0 <==> |Pieces(m, oldMTU)[0]| > limits[0]
    ensures k > 0 ==> NeedsSplit(m, oldMTU) && limits[k] < oldMTU <= limits[0] && mtu + 3 < oldMTU
    ensures (forall i :: 0 <= i <= k ==> limits[i] == limits[0]) ==> k == 0
  {
    FirstIsLargest(m, oldMTU, k);
    var first := limits[..k + 1];
    assert forall i :: 0 <= i <= k ==> first[i] == limits[i];
  }

  lemma AllOfEither(f: seq<UdpMessage>, g: seq<UdpMessage>, k: nat, n: nat)
    requires AllPortable(f) && AllPortable(g) && k <= |f| && n <= |g|
    ensures AllPortable(f[..k] + g[..n])
  {
    hide Portable;
  }

  // The datagrams of k pieces of one split and n of a finer one.
  lemma PiecesReadWrongIff(m: UdpMessage, oldMTU: int, mtu: int, k: nat, n: nat, sent: seq<seq<byte>>)
    requires Portable(m) && m.fragmentTotal <= 1
    requires k < |Fragments(m, oldMTU)| && n <= |Fragments(m, mtu)|
    requires k > 0 ==> mtu < oldMTU
    requires var pieces := Fragments(m, oldMTU)[..k] + Fragments(m, mtu)[..n];
             AllWritable(pieces) && sent == Wires(pieces)
    ensures var f, g := |Fragments(m, oldMTU)|, |Fragments(m, mtu)|;
            (exists arrivals, j :: ReadsWrong(m, sent, arrivals, j)) <==>
              Wraps(f, k) || Wraps(g, n) || (k > 0 && n == g == f)
  {
    hide *;
    var pieces := Fragments(m, oldMTU)[..k] + Fragments(m, mtu)[..n];
    FragmentsPortable(m, oldMTU);
    FragmentsPortable(m, mtu);
    AllOfEither(Fragments(m, oldMTU), Fragments(m, mtu), k, n);
    ReadsWrongIff(m, pieces);
    WrongDataIff(m, oldMTU, mtu, k, n);
  }

  // One attempt: wrong data can be read if and only if the total wraps within the
  // pieces that went out.
  lemma WrongDataAfterOneIff(
      m: UdpMessage, mtu: int, limits: seq<nat>, before: seq<seq<byte>>, after: seq<seq<byte>>, r: Outcome)
    requires Portable(m) && m.fragmentTotal <= 1 && Attempt(Pieces(m, mtu), limits, before, after, r)
    ensures before <= after
    ensures (exists arrivals, j :: ReadsWrong(m, after[|before|..], arrivals, j)) <==>
              Wraps(|Fragments(m, mtu)|, |after| - |before|)
  {
    var f, n := Fragments(m, mtu), |after| - |before|;
    FragmentsWritable(m, mtu);
    var out := f[..0] + f[..n];
    assert out == f[..n];
    hide Fragments, WireMessage, ReadsWrong, Portable, Wraps;
    assert after[|before|..] == Wires(out);
    PiecesReadWrongIff(m, mtu, mtu, 0, n, after[|before|..]);
  }

  // What the second attempt adds are its first pieces, and all of them if it
  // succeeds.
  lemma SentPieces(
      a: seq<seq<byte>>, b: seq<seq<byte>>, k: nat, limits: seq<nat>,
      before: seq<seq<byte>>, after: seq<seq<byte>>, r: Outcome)
    requires k <= |a| && Attempt(b, limits, before + a[..k], after, r)
    ensures var n := |after| - |before| - k;
            0 <= n <= |b| && (r == Sent <==> n == |b|) && after == before + (a[..k] + b[..n])
  {
    var n := |after| - |before| - k;
    assert after == before + a[..k] + b[..n];
  }

  lemma WiresJoin(a: seq<UdpMessage>, b: seq<UdpMessage>, k: nat, n: nat)
    requires AllWritable(a) && AllWritable(b) && k <= |a| && n <= |b|
    ensures AllWritable(a[..k] + b[..n]) && Wires(a[..k] + b[..n]) == Wires(a)[..k] + Wires(b)[..n]
  {
    hide WireMessage;
  }

  lemma SentByTwo(
      m: UdpMessage, oldMTU: int, mtu: int, limits: seq<nat>, k: nat,
      before: seq<seq<byte>>, after: seq<seq<byte>>, r: Outcome)
    requires Writable(m.destination) && k < |limits| && Twice(m, oldMTU, mtu, limits, k, before, after, r)
    ensures var f, g, n := Fragments(m, oldMTU), Fragments(m, mtu), |after| - |before| - k;
            && before <= after && k < |f| && 0 <= n <= |g| && (r == Sent <==> n == |g|)
            && AllWritable(f[..k] + g[..n]) && after[|before|..] == Wires(f[..k] + g[..n])
  {
    hide Fragments, WireMessage, Attempt;
    var f, g, n := Fragments(m, oldMTU), Fragments(m, mtu), |after| - |before| - k;
    FragmentsWritable(m, oldMTU);
    FragmentsWritable(m, mtu);
    assert Pieces(m, oldMTU) == Wires(f) && Pieces(m, mtu) == Wires(g);
    assert Attempt(Wires(g), limits[k + 1..], before + Wires(f)[..k], after, r) && k < |f|;
    hide *;
    SentPieces(Wires(f), Wires(g), k, limits[k + 1..], before, after, r);
    WiresJoin(f, g, k, n);
  }

  // Two attempts, of which the first left k pieces: wrong data can be read if and
  // only if a total wraps within the pieces that went out, or the first attempt
  // left some, the second one succeeded, and both splits have equally many.
  lemma WrongDataAfterTwoIff(
      m: UdpMessage, oldMTU: int, mtu: int, limits: seq<nat>, k: nat,
      before: seq<seq<byte>>, after: seq<seq<byte>>, r: Outcome)
    requires Portable(m) && m.fragmentTotal <= 1
    requires k < |limits| && Twice(m, oldMTU, mtu, limits, k, before, after, r)
    ensures before <= after && |before| + k <= |after|
    ensures var f, g := |Fragments(m, oldMTU)|, |Fragments(m, mtu)|;
            (exists arrivals, j :: ReadsWrong(m, after[|before|..], arrivals, j)) <==>
              Wraps(f, k) || Wraps(g, |after| - |before| - k) || (k > 0 && r == Sent && f == g)
  {
    assert Writable(m.destination);
    hide *;
    LeftBehind(m, oldMTU, mtu, limits, k, before, after, r);
    SentByTwo(m, oldMTU, mtu, limits, k, before, after, r);
    PiecesReadWrongIff(m, oldMTU, mtu, k, |after| - |before| - k, after[|before|..]);
  }

  // For example when the limit falls from 1200 to 1100 bytes after the first of
  // three pieces, and the smaller ones are three as well.
  lemma ShrinkingLimitMixes(m: UdpMessage)
    requires |m.data| == 3000 && DestinationLen(m.destination) == 7 && Portable(m) && m.fragmentTotal <= 1
    ensures var sent := [Pieces(m, DEFAULT_MTU)[0]] + Pieces(m, 1097);
            && Datagrams(m, DEFAULT_MTU, 1097, [1200, 1100, 1100, 1100, 1100], [], sent, Sent)
            && exists arrivals, j :: ReadsWrong(m, sent, arrivals, j)
  {
    ThreeFragments(m, DEFAULT_MTU, 1180);
    ThreeFragments(m, 1097, 1080);
    hide Fragments;
    var limits: seq<nat> := [1200, 1100, 1100, 1100, 1100];
    var sent := [Pieces(m, DEFAULT_MTU)[0]] + Pieces(m, 1097);
    assert limits[..2] == [1200, 1100] && limits[2..] == [1100, 1100, 1100];
    assert [] + Pieces(m, DEFAULT_MTU)[..1] == [Pieces(m, DEFAULT_MTU)[0]];
    assert Twice(m, DEFAULT_MTU, 1097, limits, 1, [], sent, Sent);
    hide Pieces, Twice, ReadsWrong;
    WrongDataAfterTwoIff(m, DEFAULT_MTU, 1097, limits, 1, [], sent, Sent);
    assert sent[0..] == sent;
  }
}
