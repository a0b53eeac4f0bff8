// Splitting a UDP message into datagrams of a bounded size.
module Fragmentation {
  import opened Bytes
  import opened Codec

  // data cut into pieces of mtu bytes, the last one possibly shorter.
  function Chunks(data: seq<byte>, mtu: nat): (chunks: seq<seq<byte>>)
    requires mtu > 0
    ensures chunks != []
  {
    if |data| <= mtu then [data] else [data[..mtu]] + Chunks(data[mtu..], mtu)
  }

  predicate NeedsSplit(m: UdpMessage, maxPacketSize: int) {
    0 < maxPacketSize - m.HeaderSize() < |m.data|
  }

  // The index-th of count fragments of m; both numbers are cut to a byte, and
  // only the first fragment names the destination.
  function Fragment(m: UdpMessage, data: seq<byte>, index: nat, count: nat): UdpMessage {
    m.(fragmentTotal := ToUint8(count), fragmentID := ToUint8(index), data := data,
       destination := if index > 0 then NoDestination else m.destination)
  }

  function Fragments(m: UdpMessage, maxPacketSize: int): (fragments: seq<UdpMessage>)
    ensures NeedsSplit(m, maxPacketSize) ==>
              |fragments| == |Chunks(m.data, maxPacketSize - m.HeaderSize())|
  {
    if NeedsSplit(m, maxPacketSize) then
      var chunks := Chunks(m.data, maxPacketSize - m.HeaderSize());
      seq(|chunks|, i requires 0 <= i < |chunks| => Fragment(m, chunks[i], i, |chunks|))
    else
      [m]
  }

  function Payloads(messages: seq<UdpMessage>): seq<seq<byte>> {
    seq(|messages|, i requires 0 <= i < |messages| => messages[i].data)
  }

  method FragUDPMessage(message: UdpMessage, maxPacketSize: int) returns (fragments: seq<UdpMessage>)
    ensures fragments == Fragments(message, maxPacketSize)
  {
    var udpMTU := maxPacketSize - message.HeaderSize();
    if udpMTU <= 0 || |message.data| <= udpMTU {
      return [message];
    }
    fragments := [];
    ghost var chunks := Chunks(message.data, udpMTU);
    ghost var done: seq<seq<byte>> := [];
    var originPacket := message.data;
    var remaining := |originPacket|;
    while remaining > 0
      invariant remaining > 0 ==> remaining == |originPacket| && done + Chunks(originPacket, udpMTU) == chunks
      invariant remaining <= 0 ==> done == chunks
      invariant |done| == |fragments|
      invariant forall i :: 0 <= i < |fragments| ==> fragments[i] == message.(data := done[i])
    {
      var data;
      if remaining > udpMTU {
        data := originPacket[..udpMTU];
        originPacket := originPacket[udpMTU..];
      } else {
        data := originPacket;
        originPacket := [];
      }
      fragments := fragments + [message.(data := data)];
      done := done + [data];
      remaining := remaining - udpMTU;
    }
    for index := 0 to |fragments|
      invariant |fragments| == |chunks|
      invariant forall i :: 0 <= i < |chunks| ==>
        fragments[i] == if i < index then Fragment(message, chunks[i], i, |chunks|) else message.(data := chunks[i])
    {
      var fragment := fragments[index].(fragmentID := ToUint8(index), fragmentTotal := ToUint8(|fragments|));
      if index > 0 {
        fragment := fragment.(destination := NoDestination);
      }
      fragments := fragments[index := fragment];
    }
  }

  // ---------- Nothing is lost ----------

  lemma {:induction false} ChunksJoin(data: seq<byte>, mtu: nat)
    requires mtu > 0
    ensures Join(Chunks(data, mtu)) == data
  {
    if |data| > mtu {
      ChunksJoin(data[mtu..], mtu);
      assert Chunks(data, mtu)[1..] == Chunks(data[mtu..], mtu);
      assert data == data[..mtu] + data[mtu..];
    } else {
      assert Join([data]) == data + Join([][..]);
    }
  }

  // The payloads of the fragments concatenate to the original payload.
  lemma FragmentsJoin(m: UdpMessage, maxPacketSize: int)
    ensures Join(Payloads(Fragments(m, maxPacketSize))) == m.data
  {
    var payloads := Payloads(Fragments(m, maxPacketSize));
    if NeedsSplit(m, maxPacketSize) {
      var mtu := maxPacketSize - m.HeaderSize();
      assert payloads == Chunks(m.data, mtu);
      ChunksJoin(m.data, mtu);
    } else {
      assert payloads == [m.data];
      ChunksJoin(m.data, |m.data| + 1);
    }
  }

  // ---------- How many, and how large ----------

  function CeilDiv(n: nat, d: nat): nat
    requires d > 0
  {
    (n + d - 1) / d
  }

  lemma CeilDivStep(n: nat, d: nat)
    requires 0 < d < n
    ensures CeilDiv(n, d) == 1 + CeilDiv(n - d, d)
  {
    DivStep(n - 1, d);
  }

  lemma DivStep(a: nat, d: nat)
    requires 0 < d
    ensures (a + d) / d == a / d + 1
  {
    var q := a / d;
    QuotientUnique(d, (a + d) / d, (a + d) % d, q + 1, a % d);
  }

  lemma QuotientUnique(d: nat, q: int, r: nat, q': int, r': nat)
    requires r < d && r' < d && d * q + r == d * q' + r'
    ensures q == q'
  {
    assert d * (q - q') == d * q - d * q';
    SmallMultiple(d, q - q');
  }

  lemma SmallMultiple(d: int, k: int)
    requires -d < d * k < d
    ensures k == 0
  {
  }

  lemma {:induction false} ChunkSizes(data: seq<byte>, mtu: nat)
    requires mtu > 0 && data != []
    ensures var chunks := Chunks(data, mtu);
            && |chunks| == CeilDiv(|data|, mtu)
            && forall i :: 0 <= i < |chunks| ==> 0 < |chunks[i]| <= mtu && (i < |chunks| - 1 ==> |chunks[i]| == mtu)
  {
    if |data| > mtu {
      ChunkSizes(data[mtu..], mtu);
      CeilDivStep(|data|, mtu);
    } else {
      assert (|data| + mtu - 1) / mtu == 1 by { DivStep(|data| - 1, mtu); DivSmall(|data| - 1, mtu); }
    }
  }

  lemma DivSmall(a: nat, d: nat)
    requires a < d
    ensures a / d == 0
  {
  }

  // The number of fragments is the payload length over the room left by the
  // header, rounded up, and at least two.
  lemma FragmentCount(m: UdpMessage, maxPacketSize: int)
    requires NeedsSplit(m, maxPacketSize)
    ensures |Fragments(m, maxPacketSize)| == CeilDiv(|m.data|, maxPacketSize - m.HeaderSize())
    ensures |Fragments(m, maxPacketSize)| >= 2
  {
    var mtu := maxPacketSize - m.HeaderSize();
    ChunkSizes(m.data, mtu);
    ChunkSizes(m.data[mtu..], mtu);
  }

  // Apart from its payload a fragment is determined by its position.
  lemma FragmentForm(m: UdpMessage, maxPacketSize: int)
    requires NeedsSplit(m, maxPacketSize)
    ensures var f := Fragments(m, maxPacketSize);
            forall i :: 0 <= i < |f| ==> f[i] == Fragment(m, f[i].data, i, |f|)
  {
    hide Chunks;
  }

  // Field by field: fragments keep the session and packet ID of their message, are
  // numbered with both numbers cut to a byte, and only the first one names the
  // destination. A message that needs no splitting is sent as it is.
  lemma FragmentFields(m: UdpMessage, maxPacketSize: int, i: nat)
    requires i < |Fragments(m, maxPacketSize)|
    ensures var f := Fragments(m, maxPacketSize);
            if NeedsSplit(m, maxPacketSize) then
              && f[i].sessionID == m.sessionID && f[i].packetID == m.packetID
              && f[i].fragmentTotal == |f| % 0x100 && f[i].fragmentID == i % 0x100
              && f[i].destination == (if i == 0 then m.destination else NoDestination)
            else
              f == [m]
  {
  }

  // A payload of more than two and at most three pieces.
  lemma ThreeFragments(m: UdpMessage, maxPacketSize: int, room: nat)
    requires room == maxPacketSize - m.HeaderSize() && 0 < 2 * room < |m.data| <= 3 * room
    ensures Fragments(m, maxPacketSize) == [
      Fragment(m, m.data[..room], 0, 3), Fragment(m, m.data[room..2 * room], 1, 3), Fragment(m, m.data[2 * room..], 2, 3)]
  {
    var d := m.data;
    assert d[room..][..room] == d[room..2 * room] && d[room..][room..] == d[2 * room..];
    assert Chunks(d[2 * room..], room) == [d[2 * room..]];
    assert Chunks(d[room..], room) == [d[room..2 * room], d[2 * room..]];
    assert Chunks(d, room) == [d[..room], d[room..2 * room], d[2 * room..]];
  }

  // Every packed fragment fits the packet size, unless the header alone already
  // leaves no room and the message goes out whole.
  lemma FragmentsFit(m: UdpMessage, maxPacketSize: int)
    requires Writable(m.destination)
    ensures forall f :: f in Fragments(m, maxPacketSize) ==> Writable(f.destination)
    ensures (forall f :: f in Fragments(m, maxPacketSize) ==> |WireMessage(f)| <= maxPacketSize)
        <==> (m.HeaderSize() < maxPacketSize || m.HeaderSize() + |m.data| <= maxPacketSize)
  {
    if NeedsSplit(m, maxPacketSize) {
      ChunkSizes(m.data, maxPacketSize - m.HeaderSize());
    } else {
      assert m in Fragments(m, maxPacketSize);
    }
  }

  // The first fragment is the largest on the wire.
  lemma FirstIsLargest(m: UdpMessage, maxPacketSize: int, i: nat)
    requires Writable(m.destination) && i < |Fragments(m, maxPacketSize)|
    ensures var f := Fragments(m, maxPacketSize);
            && Writable(f[0].destination) && Writable(f[i].destination)
            && |WireMessage(f[i])| <= |WireMessage(f[0])|
            && f[0].HeaderSize() == m.HeaderSize()
            && (NeedsSplit(m, maxPacketSize) ==> |WireMessage(f[0])| == maxPacketSize)
  {
    if NeedsSplit(m, maxPacketSize) {
      ChunkSizes(m.data, maxPacketSize - m.HeaderSize());
      FragmentCount(m, maxPacketSize);
    }
  }

  // ---------- When the one-byte counts are right ----------

  // With at most 255 fragments every total and index is the true one; with more
  // the total is cut, so it differs from the number of fragments.
  lemma CountsAreTrue(m: UdpMessage, maxPacketSize: int)
    requires NeedsSplit(m, maxPacketSize)
    ensures var f := Fragments(m, maxPacketSize);
            (forall i :: 0 <= i < |f| ==> f[i].fragmentTotal == |f| && f[i].fragmentID == i) <==> |f| <= 255
  {
    var f := Fragments(m, maxPacketSize);
    if |f| > 255 {
      assert f[0].fragmentTotal != |f|;
    }
  }

  // More than 255 pieces carry a total that the first n of them already reach.
  predicate Wraps(count: nat, n: nat) {
    count > 255 && n > 0 && n >= ToUint8(count)
  }

  // A larger packet size does not give more fragments.
  lemma LargerPacketsAreFewer(m: UdpMessage, large: int, small: int)
    requires small < large && NeedsSplit(m, large) && NeedsSplit(m, small)
    ensures |Fragments(m, large)| <= |Fragments(m, small)|
  {
    FragmentCount(m, large);
    FragmentCount(m, small);
    hide *;
    MoreRoomFewer(|m.data|, large - m.HeaderSize(), small - m.HeaderSize());
  }

  lemma MoreRoomFewer(n: nat, large: nat, small: nat)
    requires 0 < small <= large
    ensures CeilDiv(n, large) <= CeilDiv(n, small)
  {
    var count := CeilDiv(n, small);
    CeilDivCovers(n, small);
    hide *;
    MoreIsMore(count, small, large);
    CeilDivAtMost(n, large, count);
  }

  lemma CeilDivCovers(n: nat, d: nat)
    requires d > 0
    ensures n <= CeilDiv(n, d) * d
  {
    var q := (n + d - 1) / d;
    assert n + d - 1 == q * d + (n + d - 1) % d;
  }

  lemma MoreIsMore(k: nat, a: nat, b: nat)
    requires a <= b
    ensures k * a <= k * b
  {
    assert k * b == k * a + k * (b - a);
  }

  // 257 bytes of room per fragment is the exact bound below which some payload
  // of at most 65535 bytes needs more than 255 fragments.
  lemma WrapBound(mtu: nat)
    requires mtu > 0
    ensures (forall n: nat :: n <= 0xffff ==> CeilDiv(n, mtu) <= 255) <==> mtu >= 257
    ensures mtu == 256 ==> ToUint8(CeilDiv(0xffff, mtu)) == 0
  {
    if mtu >= 257 {
      forall n: nat | n <= 0xffff ensures CeilDiv(n, mtu) <= 255 {
        CeilDivAtMost(n, mtu, 255);
      }
    } else {
      assert 255 * mtu < 0xffff;
      CeilDivAbove(0xffff, mtu, 255);
    }
  }

  lemma CeilDivAtMost(n: nat, d: nat, k: nat)
    requires d > 0 && n <= k * d
    ensures CeilDiv(n, d) <= k
  {
    var q := CeilDiv(n, d);
    assert q * d <= n + d - 1;
    assert q > k ==> q * d >= (k + 1) * d;
  }

  lemma CeilDivAbove(n: nat, d: nat, k: nat)
    requires d > 0 && n > k * d
    ensures CeilDiv(n, d) > k
  {
  }

  const DEFAULT_MTU := 1200 - 3

  // At the default packet size a payload of at most 65535 bytes needs at most 71
  // fragments, whatever the destination, and a 255-byte domain name reaches 71.
  lemma DefaultCount(m: UdpMessage)
    requires Writable(m.destination) && |m.data| <= 0xffff
    ensures |Fragments(m, DEFAULT_MTU)| <= 71
    ensures |m.data| == 0xffff && DestinationLen(m.destination) == 259 ==> |Fragments(m, DEFAULT_MTU)| == 71
  {
    if NeedsSplit(m, DEFAULT_MTU) {
      FragmentCount(m, DEFAULT_MTU);
      var mtu := DEFAULT_MTU - m.HeaderSize();
      assert 71 * mtu >= 71 * 928;
      CeilDivAtMost(|m.data|, mtu, 71);
    }
  }
}
