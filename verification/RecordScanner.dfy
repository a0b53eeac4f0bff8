// The scanner that notes the lengths of TLS records while a handshake is read, in
// whatever pieces the connection delivers.
module RecordScanner {
  import opened Bytes

  const HEADER := 5

  // The header bytes seen of the record that is starting, the payload bytes still
  // to come of the record that has started, and the lengths so far.
  datatype State = State(header: seq<byte>, remain: nat, lengths: seq<nat>) {
    ghost predicate Valid() { |header| < HEADER && (remain > 0 ==> header == []) }
  }

  const Start := State([], 0, [])

  // ---------- Byte by byte ----------

  function Step(s: State, b: byte): State
    requires s.Valid()
  {
    if s.remain > 0 then s.(remain := s.remain - 1)
    else if |s.header| + 1 < HEADER then s.(header := s.header + [b])
    else State([], Uint16(s.header[3], b), s.lengths + [Uint16(s.header[3], b)])
  }

  function Steps(s: State, bytes: seq<byte>): (r: State)
    requires s.Valid()
    ensures r.Valid()
    decreases |bytes|
  {
    if bytes == [] then s else Steps(Step(s, bytes[0]), bytes[1..])
  }

  lemma {:induction false} StepsAppend(s: State, a: seq<byte>, b: seq<byte>)
    requires s.Valid()
    ensures Steps(s, a + b) == Steps(Steps(s, a), b)
    decreases |a|
  {
    if a == [] {
      assert a + b == b;
    } else {
      assert (a + b)[1..] == a[1..] + b;
      StepsAppend(Step(s, a[0]), a[1..], b);
    }
  }

  lemma {:induction false} StepsNothing(s: State)
    requires s.Valid()
    ensures Steps(s, []) == s
  {
  }

  // ---------- Implementation ----------

  class RecordLenConn {
    const hdr: array<byte>
    var hdrN: nat
    var remain: nat
    var lengths: seq<nat>

    ghost predicate Valid()
      reads this
    {
      hdr.Length == HEADER && hdrN < HEADER && (remain > 0 ==> hdrN == 0)
    }

    ghost function S(): (s: State)
      requires Valid()
      reads this, hdr
      ensures s.Valid()
    {
      State(hdr[..hdrN], remain, lengths)
    }

    constructor ()
      ensures Valid() && S() == Start && fresh(hdr)
    {
      hdr := new byte[HEADER](_ => 0);
      hdrN, remain, lengths := 0, 0, [];
    }

    method Scan(b: seq<byte>)
      requires Valid()
      modifies this, hdr
      ensures Valid() && S() == Steps(old(S()), b)
    {
      hide Steps;
      var rest := b;
      while |rest| > 0
        invariant Valid() && Steps(S(), rest) == Steps(old(S()), b)
        decreases |rest|
      {
        ghost var before := S();
        if remain > 0 {
          var skip := if remain < |rest| then remain else |rest|;
          SkipPayload(before, rest, skip);
          remain := remain - skip;
          rest := rest[skip..];
        } else {
          var need := if HEADER - hdrN < |rest| then HEADER - hdrN else |rest|;
          TakeHeader(before, rest, need);
          Copy(rest[..need]);
          hdrN := hdrN + need;
          assert hdr[..hdrN] == before.header + rest[..need];
          rest := rest[need..];
          if hdrN == HEADER {
            remain := Uint16(hdr[3], hdr[4]);
            lengths := lengths + [remain];
            hdrN := 0;
          }
        }
      }
      StepsNothing(S());
    }

    // copy(c.hdr[c.hdrN:], bytes)
    method Copy(bytes: seq<byte>)
      requires hdr.Length == HEADER && hdrN + |bytes| <= HEADER
      modifies hdr
      ensures hdr[..hdrN + |bytes|] == old(hdr[..hdrN]) + bytes
    {
      for i := 0 to |bytes|
        invariant hdr[..hdrN + i] == old(hdr[..hdrN]) + bytes[..i]
      {
        hdr[hdrN + i] := bytes[i];
      }
    }
  }

  lemma {:induction false} SkipPayload(s: State, bytes: seq<byte>, n: nat)
    requires s.Valid() && n <= s.remain && n <= |bytes|
    ensures Steps(s, bytes) == Steps(s.(remain := s.remain - n), bytes[n..])
    decreases n
  {
    if n > 0 {
      SkipPayload(Step(s, bytes[0]), bytes[1..], n - 1);
      assert bytes[1..][n - 1..] == bytes[n..];
    } else {
      assert bytes[n..] == bytes;
    }
  }

  // The state after n header bytes.
  function Headed(s: State, header: seq<byte>): (r: State)
    requires s.Valid() && |header| <= HEADER
    ensures r.Valid()
  {
    if |header| < HEADER && s.remain == 0 then s.(header := header)
    else if |header| < HEADER then s
    else State([], Uint16(header[3], header[4]), s.lengths + [Uint16(header[3], header[4])])
  }

  lemma {:induction false} StepsFirst(s: State, bytes: seq<byte>)
    requires s.Valid() && bytes != []
    ensures Steps(s, bytes) == Steps(Step(s, bytes[0]), bytes[1..])
  {
  }

  // The first of n header bytes.
  lemma HeaderByte(s: State, bytes: seq<byte>, n: nat)
    requires s.Valid() && s.remain == 0 && 0 < n <= |bytes| && |s.header| + n <= HEADER
    ensures var s' := Step(s, bytes[0]);
            && bytes[1..][n - 1..] == bytes[n..]
            && (|s.header| + 1 < HEADER ==>
                  && s'.Valid() && s'.remain == 0 && |s'.header| == |s.header| + 1
                  && Headed(s', s'.header + bytes[1..][..n - 1]) == Headed(s, s.header + bytes[..n]))
            && (|s.header| + 1 == HEADER ==> n == 1 && Headed(s, s.header + bytes[..n]) == s')
  {
    hide Uint16;
    assert s.header + [bytes[0]] + bytes[1..][..n - 1] == s.header + bytes[..n];
  }

  lemma {:induction false} TakeHeader(s: State, bytes: seq<byte>, n: nat)
    requires s.Valid() && s.remain == 0 && n <= |bytes| && |s.header| + n <= HEADER
    ensures Steps(s, bytes) == Steps(Headed(s, s.header + bytes[..n]), bytes[n..])
    decreases n
  {
    if n == 0 {
      assert s.header + bytes[..0] == s.header && bytes[0..] == bytes;
    } else {
      hide Steps, Step, Headed, Uint16;
      HeaderByte(s, bytes, n);
      StepsFirst(s, bytes);
      if |s.header| + 1 < HEADER {
        TakeHeader(Step(s, bytes[0]), bytes[1..], n - 1);
      }
    }
  }

  // ---------- The whole stream ----------

  // The lengths of the records of a stream, of the last one even if its payload is
  // incomplete.
  function Records(bytes: seq<byte>): seq<nat>
    decreases |bytes|
  {
    if |bytes| < HEADER then []
    else
      var n := Uint16(bytes[3], bytes[4]);
      [n] + if HEADER + n <= |bytes| then Records(bytes[HEADER + n..]) else []
  }

  lemma {:induction false} StepsFromStart(lengths: seq<nat>, bytes: seq<byte>)
    ensures Steps(State([], 0, lengths), bytes).lengths == lengths + Records(bytes)
    decreases |bytes|
  {
    var s := State([], 0, lengths);
    if |bytes| < HEADER {
      TakeHeader(s, bytes, |bytes|);
    } else {
      TakeHeader(s, bytes, HEADER);
      var n, rest := Uint16(bytes[3], bytes[4]), bytes[HEADER..];
      if n <= |rest| {
        SkipPayload(State([], n, lengths + [n]), rest, n);
        StepsFromStart(lengths + [n], rest[n..]);
        assert rest[n..] == bytes[HEADER + n..];
      } else {
        SkipPayload(State([], n, lengths + [n]), rest, |rest|);
      }
    }
  }

  // A record as section 5.1 of RFC 8446 lays it out.
  datatype Record = Record(kind: byte, version: uint16, fragment: seq<byte>) {
    predicate Fits() { |fragment| < 0x1_0000 }
    function Bytes(): seq<byte>
      requires Fits()
    {
      [kind] + BigEndian(version) + BigEndian(|fragment|) + fragment
    }
  }

  function Serialized(records: seq<Record>): seq<byte>
    requires forall r :: r in records ==> r.Fits()
  {
    if records == [] then [] else records[0].Bytes() + Serialized(records[1..])
  }

  function Lengths(records: seq<Record>): seq<nat> {
    if records == [] then [] else [|records[0].fragment|] + Lengths(records[1..])
  }

  // The scanner recovers the lengths of the records that were sent.
  lemma {:induction false} RecordsOfSerialized(records: seq<Record>)
    requires forall r :: r in records ==> r.Fits()
    ensures Records(Serialized(records)) == Lengths(records)
  {
    if records != [] {
      var r, more := records[0], Serialized(records[1..]);
      var bytes := Serialized(records);
      assert bytes == r.Bytes() + more;
      assert bytes[3] == BigEndian(|r.fragment|)[0] && bytes[4] == BigEndian(|r.fragment|)[1];
      assert bytes[HEADER + |r.fragment|..] == more;
      RecordsOfSerialized(records[1..]);
    }
  }

  // ---------- Reads of any size ----------

  // A stream that is read further only shows more records.
  lemma {:induction false} MoreInputAppends(a: seq<byte>, b: seq<byte>)
    ensures Records(a) <= Records(a + b)
  {
    StepsAppend(Start, a, b);
    StepsFromStart([], a);
    StepsFromStart([], a + b);
    LengthsGrow(Steps(Start, a), b);
    assert [] + Records(a) == Records(a) && [] + Records(a + b) == Records(a + b);
  }

  lemma {:induction false} LengthsGrow(s: State, bytes: seq<byte>)
    requires s.Valid()
    ensures s.lengths <= Steps(s, bytes).lengths
    decreases |bytes|
  {
    if bytes != [] {
      LengthsGrow(Step(s, bytes[0]), bytes[1..]);
    }
  }

  // ---------- The verdict ----------

  predicate TooLong(n: int, budget: int) { n + HEADER > budget }

  method FirstOversizedRecord(recordLengths: seq<int>, budget: int) returns (full: int)
    ensures full == FirstOversized(recordLengths, budget)
  {
    for i := 0 to |recordLengths|
      invariant forall j :: 0 <= j < i ==> !TooLong(recordLengths[j], budget)
    {
      full := recordLengths[i] + 5;
      if full > budget {
        FirstAt(recordLengths, budget, i);
        return;
      }
    }
    full := 0;
    NoneTooLong(recordLengths, budget);
  }

  function FirstOversized(lengths: seq<int>, budget: int): int {
    if lengths == [] then 0
    else if TooLong(lengths[0], budget) then lengths[0] + HEADER
    else FirstOversized(lengths[1..], budget)
  }

  lemma {:induction false} FirstAt(lengths: seq<int>, budget: int, i: nat)
    requires i < |lengths| && TooLong(lengths[i], budget)
    requires forall j :: 0 <= j < i ==> !TooLong(lengths[j], budget)
    ensures FirstOversized(lengths, budget) == lengths[i] + HEADER
  {
    if i > 0 {
      FirstAt(lengths[1..], budget, i - 1);
    }
  }

  lemma {:induction false} NoneTooLong(lengths: seq<int>, budget: int)
    requires forall j :: 0 <= j < |lengths| ==> !TooLong(lengths[j], budget)
    ensures FirstOversized(lengths, budget) == 0
  {
    if lengths != [] {
      NoneTooLong(lengths[1..], budget);
    }
  }

  // Zero means that every record fits, and an answer is never revised.
  lemma {:induction false} OversizedMeans(lengths: seq<nat>, more: seq<nat>, budget: int)
    ensures FirstOversized(lengths, budget) == 0 <==> forall j :: 0 <= j < |lengths| ==> !TooLong(lengths[j], budget)
    ensures FirstOversized(lengths, budget) != 0 ==>
      FirstOversized(lengths + more, budget) == FirstOversized(lengths, budget) > budget
  {
    if lengths != [] {
      OversizedMeans(lengths[1..], more, budget);
      assert (lengths + more)[1..] == lengths[1..] + more;
      assert forall j :: 1 <= j < |lengths| ==> lengths[j] == lengths[1..][j - 1];
    }
  }

  const REALITY_HANDSHAKE_BUDGET := 17 * 1024

  datatype Verdict = Usable | HandshakeFailed | RecordTooLong(full: int)

  // The reads a handshake makes, in order, and whether it ends in an error, are
  // parameters. A handshake error alone does not condemn the destination.
  method CheckRealityDest(dialed: bool, pieces: seq<seq<byte>>, handshakeOk: bool) returns (verdict: Verdict)
    ensures verdict == Judged(if dialed then Join(pieces) else [], dialed && handshakeOk)
  {
    var lengths: seq<nat> := [];
    if dialed {
      lengths := ScanReads(pieces);
    }
    if !(dialed && handshakeOk) && |lengths| == 0 {
      return HandshakeFailed;
    }
    var over := FirstOversizedRecord(lengths, REALITY_HANDSHAKE_BUDGET);
    return if over > 0 then RecordTooLong(over) else Usable;
  }

  function Judged(stream: seq<byte>, ok: bool): Verdict {
    var lengths := Records(stream);
    var over := FirstOversized(lengths, REALITY_HANDSHAKE_BUDGET);
    if !ok && lengths == [] then HandshakeFailed else if over > 0 then RecordTooLong(over) else Usable
  }

  // A failed handshake condemns a destination only when no record was seen; then a
  // record over the budget of 17 KiB does, with the full length of the first one; and
  // nothing else does.
  lemma JudgedMeans(stream: seq<byte>, ok: bool)
    ensures Judged(stream, ok) == HandshakeFailed <==> !ok && Records(stream) == []
    ensures Judged(stream, ok) == Usable <==>
      (ok || Records(stream) != []) && forall j :: 0 <= j < |Records(stream)| ==> Records(stream)[j] + 5 <= 17408
    ensures Judged(stream, ok).RecordTooLong? ==>
      exists j :: 0 <= j < |Records(stream)| && Judged(stream, ok).full == Records(stream)[j] + 5 > 17408 &&
        forall i :: 0 <= i < j ==> Records(stream)[i] + 5 <= 17408
  {
    var lengths := Records(stream);
    OversizedMeans(lengths, [], REALITY_HANDSHAKE_BUDGET);
    if FirstOversized(lengths, REALITY_HANDSHAKE_BUDGET) != 0 {
      var j := FirstTooLong(lengths, REALITY_HANDSHAKE_BUDGET);
      FirstAt(lengths, REALITY_HANDSHAKE_BUDGET, j);
    }
    hide Records;
  }

  lemma {:induction false} FirstTooLong(lengths: seq<int>, budget: int) returns (j: nat)
    requires exists i :: 0 <= i < |lengths| && TooLong(lengths[i], budget)
    ensures j < |lengths| && TooLong(lengths[j], budget) && forall i :: 0 <= i < j ==> !TooLong(lengths[i], budget)
  {
    j := 0;
    while !TooLong(lengths[j], budget)
      invariant j < |lengths| && forall i :: 0 <= i < j ==> !TooLong(lengths[i], budget)
      decreases |lengths| - j
    {
      j := j + 1;
    }
  }

  // Scanning read by read gives the records of the whole stream.
  method ScanReads(pieces: seq<seq<byte>>) returns (lengths: seq<nat>)
    ensures lengths == Records(Join(pieces))
  {
    var counter := new RecordLenConn();
    for i := 0 to |pieces|
      invariant counter.Valid() && fresh(counter) && fresh(counter.hdr)
      invariant counter.S() == Steps(Start, Join(pieces[..i]))
    {
      assert pieces[..i + 1] == pieces[..i] + [pieces[i]];
      JoinSnoc(pieces[..i], pieces[i]);
      StepsAppend(Start, Join(pieces[..i]), pieces[i]);
      if |pieces[i]| > 0 {
        counter.Scan(pieces[i]);
      }
    }
    assert pieces[..|pieces|] == pieces;
    StepsFromStart([], Join(pieces));
    lengths := counter.lengths;
  }
}
