// Machine integers and big-endian encoding shared by the wire formats.
module Bytes {
  type byte = n: int | 0 <= n < 0x100
  type uint16 = n: int | 0 <= n < 0x1_0000
  type uint32 = n: int | 0 <= n < 0x1_0000_0000
  type int64 = n: int | -0x8000_0000_0000_0000 <= n < 0x8000_0000_0000_0000

  // Go's conversion to uint16 keeps the low 16 bits.
  function ToUint16(n: nat): uint16 { n % 0x1_0000 }

  // Go's conversion to uint8 keeps the low 8 bits.
  function ToUint8(n: nat): byte { n % 0x100 }

  // Two bytes, most significant first.
  function BigEndian(n: uint16): (b: seq<byte>)
    ensures |b| == 2 && b[0] as int * 0x100 + b[1] as int == n
  {
    [n / 0x100, n % 0x100]
  }

  function Uint16(hi: byte, lo: byte): (n: uint16)
    ensures BigEndian(n) == [hi, lo]
  {
    hi * 0x100 + lo
  }

  function Join(chunks: seq<seq<byte>>): seq<byte> {
    if chunks == [] then [] else chunks[0] + Join(chunks[1..])
  }

  lemma {:induction false} JoinSnoc(chunks: seq<seq<byte>>, c: seq<byte>)
    ensures Join(chunks + [c]) == Join(chunks) + c
  {
    if chunks == [] {
      assert Join([c]) == c + Join([c][1..]);
    } else {
      JoinSnoc(chunks[1..], c);
      assert (chunks + [c])[1..] == chunks[1..] + [c];
    }
  }

  lemma {:induction false} JoinAppend(a: seq<seq<byte>>, b: seq<seq<byte>>)
    ensures Join(a + b) == Join(a) + Join(b)
  {
    if b == [] {
      assert a + b == a;
    } else {
      hide Join;
      var n := |b| - 1;
      JoinAppend(a, b[..n]);
      JoinSnoc(b[..n], b[n]);
      JoinSnoc(a + b[..n], b[n]);
      assert b[..n] + [b[n]] == b && a + b[..n] + [b[n]] == a + b;
    }
  }
}
